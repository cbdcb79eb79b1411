/** A column kept in memory until its documents get their final numbers. */
module BufferedColumns {
  import opened Limits
  import opened Sorting

  type Bytes = seq<bv8>

  datatype BufferedValue = BufferedValue(key: nat, begin: nat, size: nat)

  /** What a column writer receives: a document and its value. */
  datatype Written = Written(doc: nat, value: Bytes)

  // ------------------------------------------------------ renumbering documents

  ghost predicate Keyed(index: seq<BufferedValue>) {
    && (forall i :: 0 <= i < |index| ==> MIN <= index[i].key)
    && forall i, j :: 0 <= i < j < |index| ==> index[i].key < index[j].key
  }

  /** Document d has the i-th value, or comes before that document without a value of its own. */
  ghost predicate InGroup(index: seq<BufferedValue>, i: nat, d: nat)
    requires i < |index|
  {
    (if i == 0 then 0 else index[i - 1].key) < d <= index[i].key
  }

  lemma GroupsDisjoint(index: seq<BufferedValue>, i: nat, k: nat, d: nat)
    requires Keyed(index) && i < |index| && k < |index| && InGroup(index, i, d) && InGroup(index, k, d)
    ensures i == k
  {}

  lemma {:induction false} GroupExists(index: seq<BufferedValue>, n: nat, d: nat) returns (i: nat)
    requires Keyed(index) && 0 < n <= |index| && 0 < d <= index[n - 1].key
    ensures i < n && InGroup(index, i, d)
  {
    if n > 1 && d <= index[n - 2].key {
      i := GroupExists(index, n - 1, d);
    } else {
      i := n - 1;
    }
  }

  /** New numbers and the old ones they were given to; 0 marks a document without a new number. */
  ghost predicate Paired(docmap: seq<nat>, inverse: seq<nat>) {
    && |inverse| >= 1
    && (forall m :: 1 <= m < |inverse| ==> inverse[m] < |docmap| && docmap[inverse[m]] == m)
    && forall d :: 0 <= d < |docmap| && docmap[d] != 0 ==> docmap[d] < |inverse| && inverse[docmap[d]] == d
  }

  lemma PairedNext(docmap: seq<nat>, inverse: seq<nat>, d: nat)
    requires Paired(docmap, inverse) && d < |docmap| && docmap[d] == 0
    ensures Paired(docmap[d := |inverse|], inverse + [d])
  {}

  lemma {:induction false} Pigeonhole(s: seq<nat>, n: nat)
    requires Distinct(s) && forall i :: 0 <= i < |s| ==> 1 <= s[i] <= n
    ensures |s| <= n
  {
    if s != [] {
      assert 1 <= s[0] <= n;
      if n in s {
        var i :| 0 <= i < |s| && s[i] == n;
        var rest := s[..i] + s[i + 1..];
        assert forall k :: 0 <= k < |rest| ==> rest[k] == s[if k < i then k else k + 1];
        Pigeonhole(rest, n - 1);
      } else {
        assert forall i :: 0 <= i < |s| ==> s[i] in s;
        Pigeonhole(s, n - 1);
      }
    }
  }

  /** If exactly the documents 1 to k have got numbers, k numbers have been given. */
  lemma PairedCount(docmap: seq<nat>, inverse: seq<nat>, k: nat)
    requires Paired(docmap, inverse) && k < |docmap|
    requires forall d :: 0 <= d < |docmap| ==> (docmap[d] != 0 <==> 1 <= d <= k)
    ensures |inverse| == k + 1
  {
    var given, numbers := inverse[1..], docmap[1..k + 1];
    forall i | 0 <= i < |given|
      ensures 1 <= given[i] <= k && docmap[given[i]] == i + 1
    {
      assert given[i] == inverse[i + 1];
    }
    forall i, j | 0 <= i < j < |given|
      ensures given[i] != given[j]
    {
      assert docmap[given[i]] == i + 1 && docmap[given[j]] == j + 1;
    }
    forall i | 0 <= i < |numbers|
      ensures 1 <= numbers[i] < |inverse| && inverse[numbers[i]] == i + 1
    {
      assert numbers[i] == docmap[i + 1];
    }
    forall i, j | 0 <= i < j < |numbers|
      ensures numbers[i] != numbers[j]
    {
      assert inverse[numbers[i]] == i + 1 && inverse[numbers[j]] == j + 1;
    }
    Pigeonhole(given, k);
    Pigeonhole(numbers, |inverse| - 1);
  }

  /** The documents of group i got consecutive numbers, ending with the valued document. */
  ghost predicate Grouped(index: seq<BufferedValue>, docmap: seq<nat>, i: nat)
    requires i < |index|
  {
    index[i].key < |docmap| && forall d :: 0 <= d < |docmap| && InGroup(index, i, d) ==> docmap[d] != 0 && docmap[d] + (index[i].key - d) == docmap[index[i].key]
  }

  ghost predicate Unassigned(index: seq<BufferedValue>, docmap: seq<nat>, i: nat)
    requires i < |index|
  {
    forall d :: 0 <= d < |docmap| && InGroup(index, i, d) ==> docmap[d] == 0
  }

  /** A renumbering of the documents 1 to n that moves every valued document together with
      those directly before it that have no value, and leaves what follows the last value alone. */
  ghost predicate Renumbers(index: seq<BufferedValue>, n: nat, docmap: seq<nat>) {
    && |docmap| == n + 1
    && (forall d :: 1 <= d <= n ==> 1 <= docmap[d] <= n)
    && (forall d, e :: 1 <= d < e <= n ==> docmap[d] != docmap[e])
    && (forall m :: 1 <= m <= n ==> m in docmap[1..])
    && (forall i :: 0 <= i < |index| ==> Grouped(index, docmap, i))
    && (index != [] ==> forall d :: index[|index| - 1].key < d <= n ==> docmap[d] == d)
  }

  ghost predicate Compares(cmp: (Bytes, Bytes) -> int) {
    && (forall a, b :: cmp(a, b) < 0 <==> cmp(b, a) > 0)
    && (forall a, b, c :: cmp(a, b) <= 0 && cmp(b, c) <= 0 ==> cmp(a, c) <= 0)
  }

  /** By value, and by place among equal values. */
  predicate Before(cmp: (Bytes, Bytes) -> int, values: seq<Bytes>, i: nat, j: nat) {
    i < |values| && j < |values| && (cmp(values[i], values[j]) < 0 || (cmp(values[i], values[j]) == 0 && i < j))
  }

  lemma BeforeOrders(cmp: (Bytes, Bytes) -> int, values: seq<Bytes>, s: seq<nat>)
    requires Compares(cmp) && forall i :: i in s ==> i < |values|
    ensures Orders((i: nat, j: nat) => Before(cmp, values, i, j), s)
  {
    var less := (i: nat, j: nat) => Before(cmp, values, i, j);
    forall x, y | x in s && y in s && x != y
      ensures less(x, y) || less(y, x)
    {
      assert cmp(values[x], values[y]) < 0 <==> cmp(values[y], values[x]) > 0;
    }
    forall x, y, z | x in s && y in s && z in s && less(x, y) && less(y, z)
      ensures less(x, z)
    {
      BeforeChain(cmp, values, x, y, z);
    }
  }

  lemma BeforeChain(cmp: (Bytes, Bytes) -> int, values: seq<Bytes>, x: nat, y: nat, z: nat)
    requires Compares(cmp) && Before(cmp, values, x, y) && Before(cmp, values, y, z)
    ensures Before(cmp, values, x, z)
  {
    var a, b, c := values[x], values[y], values[z];
    assert cmp(a, c) <= 0;
    if cmp(a, c) == 0 {
      assert cmp(c, a) == 0;
      assert cmp(c, b) <= 0 && cmp(b, a) <= 0;
    }
  }

  ghost predicate Fits(data: Bytes, index: seq<BufferedValue>) {
    forall i :: 0 <= i < |index| ==> index[i].begin + index[i].size <= |data|
  }

  ghost function ValueOf(data: Bytes, v: BufferedValue): Written
    requires v.begin + v.size <= |data|
  {
    Written(v.key, data[v.begin..v.begin + v.size])
  }

  /** The documents and values an index describes. */
  ghost function Values(data: Bytes, index: seq<BufferedValue>): (s: seq<Written>)
    requires Fits(data, index)
    ensures |s| == |index| && forall i :: 0 <= i < |index| ==> s[i] == ValueOf(data, index[i])
  {
    seq(|index|, i requires 0 <= i < |index| => ValueOf(data, index[i]))
  }

  /** More data behind the values changes none of them. */
  lemma ValuesStay(data: Bytes, index: seq<BufferedValue>, other: Bytes, upTo: nat)
    requires upTo <= |data| && upTo <= |other| && data[..upTo] == other[..upTo]
    requires forall i :: 0 <= i < |index| ==> index[i].begin + index[i].size <= upTo
    ensures Values(other, index) == Values(data, index)
  {
    forall i | 0 <= i < |index|
      ensures ValueOf(other, index[i]) == ValueOf(data, index[i])
    {
      var v := index[i];
      assert data[v.begin..v.begin + v.size] == data[..upTo][v.begin..v.begin + v.size];
      assert other[v.begin..v.begin + v.size] == other[..upTo][v.begin..v.begin + v.size];
    }
  }

  function Payloads(data: Bytes, index: seq<BufferedValue>): (s: seq<Bytes>)
    requires Fits(data, index)
    ensures |s| == |index| && forall i :: 0 <= i < |index| ==> s[i] == data[index[i].begin..index[i].begin + index[i].size]
  {
    seq(|index|, i requires 0 <= i < |index| => data[index[i].begin..index[i].begin + index[i].size])
  }

  /** No value is smaller than the one before it. */
  ghost predicate InOrder(cmp: (Bytes, Bytes) -> int, values: seq<Bytes>) {
    forall i :: 0 < i < |values| ==> cmp(values[i], values[i - 1]) >= 0
  }

  method IsSorted(values: seq<Bytes>, cmp: (Bytes, Bytes) -> int) returns (sorted: bool)
    ensures sorted <==> InOrder(cmp, values)
  {
    var i := 1;
    while i < |values|
      invariant forall k :: 0 < k < i && k < |values| ==> cmp(values[k], values[k - 1]) >= 0
    {
      if cmp(values[i], values[i - 1]) < 0 {
        return false;
      }
      i := i + 1;
    }
    sorted := true;
  }

  /** The indices of a list in some order. */
  ghost predicate Shuffled(perm: seq<nat>, n: nat) {
    |perm| == n && Distinct(perm) && (forall q :: 0 <= q < |perm| ==> perm[q] < n) && forall i :: 0 <= i < n ==> i in perm
  }

  /** The first n values in the order of `perm`, each under its new number, by increasing new number. */
  ghost predicate Emitted(data: Bytes, index: seq<BufferedValue>, perm: seq<nat>, docmap: seq<nat>, out: seq<Written>, n: nat) {
    && |out| == n <= |perm| && Fits(data, index)
    && (forall q :: 0 <= q < n ==> perm[q] < |index| && index[perm[q]].key < |docmap|
                                   && out[q] == Written(docmap[index[perm[q]].key], ValueOf(data, index[perm[q]]).value))
    && forall q, r :: 0 <= q < r < n ==> out[q].doc < out[r].doc
  }

  /** Changing numbers outside a group leaves the group as it is. */
  lemma GroupSame(index: seq<BufferedValue>, before: seq<nat>, after: seq<nat>, i: nat)
    requires i < |index| && |before| == |after| && Keyed(index)
    requires forall d :: 0 <= d < |before| && InGroup(index, i, d) ==> after[d] == before[d]
    ensures Grouped(index, before, i) ==> Grouped(index, after, i) && after[index[i].key] == before[index[i].key]
    ensures Unassigned(index, before, i) ==> Unassigned(index, after, i)
  {}

  /** Numbering one group touches no other. */
  lemma GroupsKept(index: seq<BufferedValue>, before: seq<nat>, after: seq<nat>, perm: seq<nat>, q: nat)
    requires Keyed(index) && Shuffled(perm, |index|) && q < |perm| && |before| == |after|
    requires forall d :: 0 <= d < |before| && !InGroup(index, perm[q], d) ==> after[d] == before[d]
    requires forall k :: 0 <= k < q ==> Grouped(index, before, perm[k])
    requires forall k :: q <= k < |perm| ==> Unassigned(index, before, perm[k])
    ensures forall k :: 0 <= k < q ==> Grouped(index, after, perm[k]) && after[index[perm[k]].key] == before[index[perm[k]].key]
    ensures forall k :: q < k < |perm| ==> Unassigned(index, after, perm[k])
  {
    hide Grouped, Unassigned;
    forall k | 0 <= k < |perm| && k != q
      ensures Grouped(index, before, perm[k]) ==> Grouped(index, after, perm[k]) && index[perm[k]].key < |after| && after[index[perm[k]].key] == before[index[perm[k]].key]
      ensures Unassigned(index, before, perm[k]) ==> Unassigned(index, after, perm[k])
    {
      GroupElsewhere(index, before, after, perm[k], perm[q]);
    }
  }

  lemma GroupElsewhere(index: seq<BufferedValue>, before: seq<nat>, after: seq<nat>, i: nat, k: nat)
    requires Keyed(index) && i < |index| && k < |index| && i != k && |before| == |after|
    requires forall d :: 0 <= d < |before| && !InGroup(index, k, d) ==> after[d] == before[d]
    ensures Grouped(index, before, i) ==> Grouped(index, after, i) && index[i].key < |after| && after[index[i].key] == before[index[i].key]
    ensures Unassigned(index, before, i) ==> Unassigned(index, after, i)
  {
    forall d | 0 <= d < |before| && InGroup(index, i, d)
      ensures after[d] == before[d]
    {
      if InGroup(index, k, d) {
        GroupsDisjoint(index, i, k, d);
      }
    }
    GroupSame(index, before, after, i);
  }

  /** Values written stay right while later documents are numbered; one more is added. */
  lemma EmittedNext(data: Bytes, index: seq<BufferedValue>, perm: seq<nat>, before: seq<nat>, after: seq<nat>, out: seq<Written>, q: nat, w: Written)
    requires Emitted(data, index, perm, before, out, q) && q < |perm| && |before| == |after|
    requires forall k :: 0 <= k < q ==> perm[k] < |index| && index[perm[k]].key < |after| && after[index[perm[k]].key] == before[index[perm[k]].key]
    requires perm[q] < |index| && index[perm[q]].key < |after| && w == Written(after[index[perm[q]].key], ValueOf(data, index[perm[q]]).value)
    requires forall k :: 0 <= k < q ==> out[k].doc < w.doc
    ensures Emitted(data, index, perm, after, out + [w], q + 1)
  {}

  /** When all groups have numbers, exactly the documents up to the last value have. */
  lemma GroupsCover(index: seq<BufferedValue>, docmap: seq<nat>, perm: seq<nat>)
    requires Keyed(index) && index != [] && Shuffled(perm, |index|) && |docmap| > 0 && docmap[0] == 0
    requires forall k :: 0 <= k < |perm| ==> Grouped(index, docmap, perm[k])
    requires forall d :: index[|index| - 1].key < d < |docmap| ==> docmap[d] == 0
    ensures forall d :: 0 <= d < |docmap| ==> (docmap[d] != 0 <==> 1 <= d <= index[|index| - 1].key)
    ensures forall i :: 0 <= i < |index| ==> Grouped(index, docmap, i)
  {
    forall i | 0 <= i < |index|
      ensures Grouped(index, docmap, i)
    {
      assert i in perm;
      var k :| 0 <= k < |perm| && perm[k] == i;
    }
    forall d | 1 <= d < |docmap| && d <= index[|index| - 1].key
      ensures docmap[d] != 0
    {
      var i := GroupExists(index, |index|, d);
      assert Grouped(index, docmap, i);
    }
  }

  lemma TailKept(index: seq<BufferedValue>, before: seq<nat>, after: seq<nat>, d: nat, i: nat)
    requires Keyed(index) && i < |index| && index[i].key <= d && |before| == |after| && forall e :: 0 <= e <= d && e < |before| ==> after[e] == before[e]
    ensures Grouped(index, before, i) ==> Grouped(index, after, i) && index[i].key < |after| && after[index[i].key] == before[index[i].key]
  {
    GroupSame(index, before, after, i);
  }

  lemma EmittedSame(data: Bytes, index: seq<BufferedValue>, perm: seq<nat>, before: seq<nat>, after: seq<nat>, out: seq<Written>, q: nat)
    requires Emitted(data, index, perm, before, out, q) && |before| == |after|
    requires forall k :: 0 <= k < q ==> perm[k] < |index| && index[perm[k]].key < |after| && after[index[perm[k]].key] == before[index[perm[k]].key]
    ensures Emitted(data, index, perm, after, out, q)
  {}

  lemma Renumbered(index: seq<BufferedValue>, n: nat, docmap: seq<nat>, inverse: seq<nat>)
    requires |docmap| == n + 1 && Paired(docmap, inverse) && |inverse| == n + 1
    requires forall d :: 0 <= d <= n ==> (docmap[d] != 0 <==> 1 <= d)
    requires forall i :: 0 <= i < |index| ==> Grouped(index, docmap, i)
    requires index != [] ==> forall d :: index[|index| - 1].key < d <= n ==> docmap[d] == d
    ensures Renumbers(index, n, docmap)
  {
    hide Grouped;
    forall d, e | 1 <= d < e <= n
      ensures docmap[d] != docmap[e]
    {
      assert inverse[docmap[d]] == d && inverse[docmap[e]] == e;
    }
    forall m | 1 <= m <= n
      ensures m in docmap[1..]
    {
      assert docmap[1..][inverse[m] - 1] == m;
    }
  }

  lemma NoneAssigned(index: seq<BufferedValue>, docmap: seq<nat>, perm: seq<nat>)
    requires (forall d :: 0 <= d < |docmap| ==> docmap[d] == 0) && forall q :: 0 <= q < |perm| ==> perm[q] < |index|
    ensures forall k :: 0 <= k < |perm| ==> Unassigned(index, docmap, perm[k])
  {}

  /** Sorting the indices of a list shuffles them. */
  lemma SortShuffles(cmp: (Bytes, Bytes) -> int, values: seq<Bytes>, perm: seq<nat>)
    requires Compares(cmp) && SameElements(perm, Iota(|values|)) && Ascends((i: nat, j: nat) => Before(cmp, values, i, j), perm)
    ensures Shuffled(perm, |values|)
  {
    SameMembers(perm, Iota(|values|));
    forall i | 0 <= i < |values|
      ensures i in perm
    {
      assert Iota(|values|)[i] == i;
    }
    forall q | 0 <= q < |perm|
      ensures perm[q] < |values|
    {
      assert perm[q] in perm;
    }
    forall q, r | 0 <= q < r < |perm|
      ensures perm[q] != perm[r]
    {
      var less := (i: nat, j: nat) => Before(cmp, values, i, j);
      assert less(perm[q], perm[r]);
      assert cmp(values[perm[q]], values[perm[q]]) == 0;
    }
  }

  /** Values are written by value, and by place among equal values. */
  ghost predicate ByValue(cmp: (Bytes, Bytes) -> int, order: seq<nat>, out: seq<Written>) {
    |order| == |out| && forall q, r :: 0 <= q < r < |out| ==>
      cmp(out[q].value, out[r].value) < 0 || (cmp(out[q].value, out[r].value) == 0 && order[q] < order[r])
  }

  lemma EmittedByValue(data: Bytes, index: seq<BufferedValue>, perm: seq<nat>, docmap: seq<nat>, out: seq<Written>, cmp: (Bytes, Bytes) -> int)
    requires Emitted(data, index, perm, docmap, out, |perm|)
    requires Ascends((i: nat, j: nat) => Before(cmp, Payloads(data, index), i, j), perm)
    ensures ByValue(cmp, perm, out)
  {
    var values := Payloads(data, index);
    var less := (i: nat, j: nat) => Before(cmp, values, i, j);
    forall q, r | 0 <= q < r < |out|
      ensures cmp(out[q].value, out[r].value) < 0 || (cmp(out[q].value, out[r].value) == 0 && perm[q] < perm[r])
    {
      assert less(perm[q], perm[r]);
      assert out[q].value == values[perm[q]] && out[r].value == values[perm[r]];
    }
  }

  lemma NoneEmitted(data: Bytes, index: seq<BufferedValue>, perm: seq<nat>, docmap: seq<nat>)
    requires Fits(data, index)
    ensures Emitted(data, index, perm, docmap, [], 0)
  {}

  lemma FirstPaired(docmap: seq<nat>, inverse: seq<nat>)
    requires inverse == [0] && forall d :: 0 <= d < |docmap| ==> docmap[d] == 0
    ensures Paired(docmap, inverse)
  {}

  method SortedIndex(values: seq<Bytes>, cmp: (Bytes, Bytes) -> int) returns (perm: seq<nat>)
    requires Compares(cmp)
    ensures Shuffled(perm, |values|) && Ascends((i: nat, j: nat) => Before(cmp, values, i, j), perm)
  {
    var less := (i: nat, j: nat) => Before(cmp, values, i, j);
    BeforeOrders(cmp, values, Iota(|values|));
    perm := Sort(Iota(|values|), less);
    SortShuffles(cmp, values, perm);
  }

  // ------------------------------------------------------- applying a renumbering

  /** A renumbering that gives different numbers from its own range to the documents of a column. */
  ghost predicate Maps(docmap: seq<nat>, index: seq<BufferedValue>) {
    && (forall i :: 0 <= i < |index| ==> index[i].key < |docmap| && MIN <= docmap[index[i].key] < |docmap|)
    && forall i, j :: 0 <= i < j < |index| ==> docmap[index[i].key] != docmap[index[j].key]
  }

  ghost function Moved(index: seq<BufferedValue>, docmap: seq<nat>): (s: seq<BufferedValue>)
    requires Maps(docmap, index)
    ensures |s| == |index| && forall i :: 0 <= i < |index| ==> s[i] == index[i].(key := docmap[index[i].key])
  {
    seq(|index|, i requires 0 <= i < |index| => index[i].(key := docmap[index[i].key]))
  }

  ghost predicate ByKey(s: seq<BufferedValue>) {
    forall i, j :: 0 <= i < j < |s| ==> s[i].key < s[j].key
  }

  /** The index holds exactly the moved entries, by increasing new number. */
  ghost predicate Rearranged(before: seq<BufferedValue>, docmap: seq<nat>, after: seq<BufferedValue>) {
    Maps(docmap, before) && ByKey(after) && forall v :: v in after <==> v in Moved(before, docmap)
  }

  /** The first n entries lie at the places of their new numbers; nothing else is filled. */
  ghost predicate Scattered(buffer: seq<BufferedValue>, index: seq<BufferedValue>, docmap: seq<nat>, n: nat) {
    && Maps(docmap, index) && |buffer| + 1 == |docmap| && n <= |index|
    && (forall i :: 0 <= i < n ==> buffer[docmap[index[i].key] - MIN] == Moved(index, docmap)[i])
    && forall k :: 0 <= k < |buffer| && buffer[k].key != INVALID ==> buffer[k].key == k + MIN && buffer[k] in Moved(index, docmap)
  }

  lemma ScatteredNone(buffer: seq<BufferedValue>, index: seq<BufferedValue>, docmap: seq<nat>)
    requires Maps(docmap, index) && |buffer| + 1 == |docmap| && forall k :: 0 <= k < |buffer| ==> buffer[k].key == INVALID
    ensures Scattered(buffer, index, docmap, 0)
  {}

  lemma ScatterStep(buffer: seq<BufferedValue>, index: seq<BufferedValue>, docmap: seq<nat>, n: nat)
    requires Scattered(buffer, index, docmap, n) && n < |index|
    ensures index[n].key < |docmap| && 0 <= docmap[index[n].key] - MIN < |buffer|
    ensures var newKey := docmap[index[n].key]; Scattered(buffer[newKey - MIN := index[n].(key := newKey)], index, docmap, n + 1)
  {
    var moved := Moved(index, docmap);
    assert moved[n] in moved;
  }

  /** The filled ones of the first k places, in order. */
  ghost predicate Gathered(s: seq<BufferedValue>, buffer: seq<BufferedValue>, index: seq<BufferedValue>, docmap: seq<nat>, k: nat) {
    && Scattered(buffer, index, docmap, |index|) && k <= |buffer|
    && ByKey(s) && (forall i :: 0 <= i < |s| ==> s[i].key <= k && s[i] in Moved(index, docmap))
    && forall i :: 0 <= i < k && buffer[i].key != INVALID ==> buffer[i] in s
  }

  lemma GatheredNone(buffer: seq<BufferedValue>, index: seq<BufferedValue>, docmap: seq<nat>)
    requires Scattered(buffer, index, docmap, |index|)
    ensures Gathered([], buffer, index, docmap, 0)
  {}

  lemma GatherStep(s: seq<BufferedValue>, buffer: seq<BufferedValue>, index: seq<BufferedValue>, docmap: seq<nat>, k: nat, data: Bytes)
    requires Gathered(s, buffer, index, docmap, k) && k < |buffer| && Fits(data, index)
    ensures buffer[k].key != INVALID ==> buffer[k].begin + buffer[k].size <= |data|
    ensures Gathered(if buffer[k].key != INVALID then s + [buffer[k]] else s, buffer, index, docmap, k + 1)
  {
    hide Scattered, Moved, Maps, Fits;
    ScatteredAt(buffer, index, docmap, k, data);
    if buffer[k].key != INVALID {
      var next := s + [buffer[k]];
      assert forall i :: 0 <= i < |s| ==> next[i] == s[i];
      assert next[|s|] == buffer[k];
    }
  }

  lemma ScatteredAt(buffer: seq<BufferedValue>, index: seq<BufferedValue>, docmap: seq<nat>, k: nat, data: Bytes)
    requires Scattered(buffer, index, docmap, |index|) && k < |buffer| && Fits(data, index)
    ensures Maps(docmap, index)
    ensures buffer[k].key != INVALID ==> buffer[k].key == k + MIN && buffer[k] in Moved(index, docmap) && buffer[k].begin + buffer[k].size <= |data|
  {
    MovedFits(data, index, docmap);
  }

  lemma GatheredAll(s: seq<BufferedValue>, buffer: seq<BufferedValue>, index: seq<BufferedValue>, docmap: seq<nat>)
    requires Gathered(s, buffer, index, docmap, |buffer|)
    ensures Rearranged(index, docmap, s)
  {
    var moved := Moved(index, docmap);
    forall v | v in moved
      ensures v in s
    {
      var i :| 0 <= i < |moved| && moved[i] == v;
      assert buffer[v.key - MIN] == v;
    }
    forall v | v in s
      ensures v in moved
    {
      var i :| 0 <= i < |s| && s[i] == v;
    }
  }

  /** There is only one such index. */
  lemma RearrangedUnique(before: seq<BufferedValue>, docmap: seq<nat>, a: seq<BufferedValue>, b: seq<BufferedValue>)
    requires Rearranged(before, docmap, a) && Rearranged(before, docmap, b)
    ensures a == b
  {
    SortedUnique(a, b);
  }

  lemma {:induction false} SortedUnique(a: seq<BufferedValue>, b: seq<BufferedValue>)
    requires ByKey(a) && ByKey(b) && forall v :: v in a <==> v in b
    ensures a == b
  {
    assert (a != [] ==> a[0] in b) && (b != [] ==> b[0] in a);
    if a != [] {
      forall v
        ensures v in a[1..] <==> v in b[1..]
      {
        TailMember(a, v);
        TailMember(b, v);
      }
      SortedUnique(a[1..], b[1..]);
      assert a == [a[0]] + a[1..] && b == [b[0]] + b[1..];
    }
  }

  lemma TailMember(s: seq<BufferedValue>, v: BufferedValue)
    requires ByKey(s) && s != []
    ensures v in s[1..] <==> v in s && v != s[0]
  {
    if v in s && v != s[0] {
      var i :| 0 <= i < |s| && s[i] == v;
      assert s[1..][i - 1] == v;
    }
  }

  class BufferedColumn {
    var dataBuf: Bytes
    var index: seq<BufferedValue>
    var pendingOffset: nat
    var pendingKey: nat

    ghost predicate Valid()
      reads this
    {
      && pendingOffset <= |dataBuf|
      && (forall i :: 0 <= i < |index| ==> index[i].begin + index[i].size <= if pendingKey == INVALID then |dataBuf| else pendingOffset)
    }

    /** The documents ascend. */
    ghost predicate Ascending()
      reads this`index, this`pendingKey
    {
      Keyed(index) && (pendingKey != INVALID ==> Above(pendingKey))
    }

    /** No document stored so far is behind this one. */
    ghost predicate Above(key: nat)
      reads this`index
    {
      forall i :: 0 <= i < |index| ==> index[i].key < key
    }

    function Payload(v: BufferedValue): Bytes
      requires v.begin + v.size <= |dataBuf|
      reads this
    {
      dataBuf[v.begin..v.begin + v.size]
    }

    /** The documents and values of the column. */
    ghost function Stored(): (s: seq<Written>)
      requires Valid()
      reads this
      ensures |s| == |index|
    {
      Values(dataBuf, index)
    }

    /** The value being written. */
    ghost function Pending(): seq<Written>
      requires Valid()
      reads this
    {
      if pendingKey == INVALID then [] else [Written(pendingKey, dataBuf[pendingOffset..])]
    }

    constructor ()
      ensures Valid() && Ascending() && Stored() == [] && Pending() == []
    {
      dataBuf, index, pendingOffset, pendingKey := [], [], 0, INVALID;
    }

    /** Starts the value of a document; doing so again goes on with it. The documents keep ascending exactly if this one is
        behind those stored, which only a reset can leave in doubt. */
    method Prepare(key: nat)
      requires Valid() && pendingKey <= key && MIN <= key
      modifies this
      ensures Valid() && pendingKey == key
      ensures old(Ascending()) ==> (Ascending() <==> old(pendingKey) != INVALID || old(Above(key)))
      ensures old(pendingKey) == key ==> Stored() == old(Stored()) && Pending() == old(Pending())
      ensures old(pendingKey) != key ==> Stored() == old(Stored() + Pending()) && Pending() == [Written(key, [])]
    {
      if pendingKey != key {
        var offset := |dataBuf|;
        if pendingKey != INVALID {
          index := index + [BufferedValue(pendingKey, pendingOffset, offset - pendingOffset)];
          assert dataBuf[pendingOffset..offset] == dataBuf[pendingOffset..];
          assert Values(dataBuf, index) == old(Values(dataBuf, index)) + [Written(pendingKey, dataBuf[pendingOffset..])];
        }
        pendingKey, pendingOffset := key, offset;
        assert dataBuf[offset..] == [];
      }
    }

    /** Bytes go to the value being written, and to no document if there is none. */
    method WriteBytes(b: Bytes)
      requires Valid()
      modifies this`dataBuf
      ensures Valid() && Stored() == old(Stored())
      ensures Pending() == if pendingKey == INVALID then [] else [Written(pendingKey, old(Pending()[0].value) + b)]
    {
      ValuesStay(dataBuf, index, dataBuf + b, |dataBuf|);
      dataBuf := dataBuf + b;
      assert dataBuf[pendingOffset..] == old(dataBuf[pendingOffset..]) + b;
    }

    /** Drops the value being written. */
    method Reset()
      requires Valid()
      modifies this
      ensures dataBuf == if old(pendingKey) == INVALID then old(dataBuf) else old(dataBuf[..pendingOffset])
      ensures Valid() && Stored() == old(Stored()) && Pending() == [] && pendingKey == INVALID && (old(Ascending()) ==> Ascending())
    {
      if pendingKey == INVALID {
        return;
      }
      ValuesStay(dataBuf, index, dataBuf[..pendingOffset], pendingOffset);
      dataBuf := dataBuf[..pendingOffset];
      pendingKey := INVALID;
    }

    /** Writes the values as they are. */
    method FlushAlreadySorted() returns (out: seq<Written>)
      requires Fits(dataBuf, index)
      ensures out == Values(dataBuf, index)
    {
      out := [];
      while |out| < |index|
        invariant |out| <= |index| && out == Values(dataBuf, index)[..|out|]
      {
        var v := index[|out|];
        out := out + [Written(v.key, Payload(v))];
      }
    }

    /** Sorts the column by value and renumbers the documents of the segment accordingly,
        unless the values are in order already. `order` names the values in their new order. */
    method FlushPrimary(docsCount: nat, cmp: (Bytes, Bytes) -> int)
      returns (done: bool, docmap: array<nat>, out: seq<Written>, ghost order: seq<nat>)
      requires Valid() && Keyed(index) && Compares(cmp) && index != [] && Last() <= docsCount
      ensures done <==> !InOrder(cmp, Payloads(dataBuf, index))
      ensures !done ==> docmap.Length == 0 && out == []
      ensures done ==> docmap.Length == MIN + docsCount && Renumbers(index, docsCount, docmap[..])
      ensures done ==> Shuffled(order, |index|) && Emitted(dataBuf, index, order, docmap[..], out, |index|) && ByValue(cmp, order, out)
    {
      hide Shuffled, Emitted, ByValue, Renumbers, SameElements, Orders, Before, Ascends, Compares, Keyed, InOrder;
      docmap := new nat[0];
      out, order := [], [];
      var values := Payloads(dataBuf, index);
      var sorted := IsSorted(values, cmp);
      done := !sorted;
      if done {
        var perm := SortedIndex(values, cmp);
        docmap := new nat[MIN + docsCount](_ => 0);
        out := Renumber(docmap, perm, docsCount);
        order := perm;
        EmittedByValue(dataBuf, index, perm, docmap[..], out, cmp);
      }
    }

    /** Stores the value being written. */
    method Close(docsCount: nat)
      requires Valid() && Ascending() && pendingKey < EOF && docsCount < EOF
      requires forall k :: 0 <= k < |Stored() + Pending()| ==> (Stored() + Pending())[k].doc <= docsCount
      modifies this
      ensures Valid() && Ascending() && Keyed(index) && Stored() == old(Stored() + Pending())
      ensures index != [] ==> Last() <= docsCount
    {
      ghost var all := Stored() + Pending();
      forall i | 0 <= i < |index|
        ensures index[i].key < EOF
      {
        assert index[i].key == all[i].doc;
      }
      hide Keyed;
      Prepare(EOF);
      assert index != [] ==> Stored()[|index| - 1].doc == Last();
    }

    /** Flushes the column that a segment of `docsCount` documents is sorted by. Without a
        renumbering the values are written as they are. */
    method FlushOrdered(docsCount: nat, cmp: (Bytes, Bytes) -> int) returns (docmap: array<nat>, out: seq<Written>, ghost order: seq<nat>)
      requires Valid() && Ascending() && Compares(cmp) && pendingKey < EOF && docsCount < EOF
      requires forall k :: 0 <= k < |Stored() + Pending()| ==> (Stored() + Pending())[k].doc <= docsCount
      modifies this
      ensures Valid() && Ascending() && Stored() == old(Stored() + Pending())
      ensures docmap.Length == 0 <==> InOrder(cmp, Payloads(dataBuf, index))
      ensures docmap.Length == 0 ==> out == Stored()
      ensures docmap.Length != 0 ==> Renumbers(index, docsCount, docmap[..])
      ensures docmap.Length != 0 ==> Shuffled(order, |index|) && Emitted(dataBuf, index, order, docmap[..], out, |index|) && ByValue(cmp, order, out)
    {
      hide Shuffled, Emitted, ByValue, Compares, Renumbers, Values;
      Close(docsCount);
      hide Keyed, Ascending;
      docmap := new nat[0];
      out, order := [], [];
      if |index| == 0 {
        return;
      }
      var done;
      done, docmap, out, order := FlushPrimary(docsCount, cmp);
      if !done {
        docmap := new nat[0];
        out := FlushAlreadySorted();
      }
    }

    /** Gives new numbers to all documents, and writes the values in the order of `perm`. */
    method Renumber(docmap: array<nat>, perm: seq<nat>, docsCount: nat) returns (out: seq<Written>)
      requires Valid() && Keyed(index) && index != [] && Last() <= docsCount && docmap.Length == MIN + docsCount
      requires (forall d :: 0 <= d < docmap.Length ==> docmap[d] == 0) && Shuffled(perm, |index|)
      modifies docmap
      ensures Renumbers(index, docsCount, docmap[..])
      ensures Emitted(dataBuf, index, perm, docmap[..], out, |perm|)
    {
      hide Valid, Renumbers, Shuffled, Grouped, Unassigned, Paired, Keyed, Fits, Emitted;
      RenumberFacts(perm);
      ghost var inverse;
      var newDoc;
      out, newDoc, inverse := NumberGroups(docmap, perm);
      ghost var before := docmap[..];
      inverse := NumberTail(docmap, newDoc, inverse);
      forall i | 0 <= i < |index|
        ensures Grouped(index, docmap[..], i) && index[i].key < |docmap[..]| && docmap[..][index[i].key] == before[index[i].key]
      {
        KeyUpToLast(i);
        TailKept(index, before, docmap[..], Last(), i);
      }
      EmittedSame(dataBuf, index, perm, before, docmap[..], out, |perm|);
      Renumbered(index, docsCount, docmap[..], inverse);
    }

    /** Group by group, in the order of `perm`. */
    method NumberGroups(docmap: array<nat>, perm: seq<nat>) returns (out: seq<Written>, newDoc: nat, ghost inverse: seq<nat>)
      requires Valid() && Keyed(index) && index != [] && Last() < docmap.Length
      requires (forall d :: 0 <= d < docmap.Length ==> docmap[d] == 0) && Shuffled(perm, |index|)
      modifies docmap
      ensures Paired(docmap[..], inverse) && newDoc == |inverse| == Last() + 1
      ensures forall d :: 0 <= d < docmap.Length ==> (docmap[d] != 0 <==> 1 <= d <= Last())
      ensures forall i :: 0 <= i < |index| ==> Grouped(index, docmap[..], i)
      ensures Emitted(dataBuf, index, perm, docmap[..], out, |perm|)
    {
      hide Valid, Shuffled, Grouped, Unassigned, Paired, Keyed, Fits, Emitted;
      RenumberFacts(perm);
      newDoc := MIN;
      inverse := [0];
      FirstPaired(docmap[..], inverse);
      NoneAssigned(index, docmap[..], perm);
      NoneEmitted(dataBuf, index, perm, docmap[..]);
      out := [];
      var q := 0;
      while q < |perm|
        invariant 0 <= q <= |perm| && MIN <= newDoc == |inverse| && Paired(docmap[..], inverse)
        invariant forall k :: 0 <= k < q ==> Grouped(index, docmap[..], perm[k])
        invariant forall k :: q <= k < |perm| ==> Unassigned(index, docmap[..], perm[k])
        invariant docmap[0] == 0 && forall d :: Last() < d < docmap.Length ==> docmap[d] == 0
        invariant Emitted(dataBuf, index, perm, docmap[..], out, q) && |out| == q && forall k :: 0 <= k < q ==> out[k].doc < newDoc
      {
        ghost var before := docmap[..];
        newDoc, inverse := AssignGroup(docmap, perm[q], newDoc, inverse);
        GroupsKept(index, before, docmap[..], perm, q);
        GroupInside(perm[q]);
        var w := Written(newDoc - 1, Payload(index[perm[q]]));
        EmittedNext(dataBuf, index, perm, before, docmap[..], out, q, w);
        out := out + [w];
        q := q + 1;
      }
      GroupsCover(index, docmap[..], perm);
      CoveredArray(docmap, Last());
      PairedCount(docmap[..], inverse, Last());
    }

    lemma CoveredArray(docmap: array<nat>, k: nat)
      requires forall d :: 0 <= d < |docmap[..]| ==> (docmap[..][d] != 0 <==> 1 <= d <= k)
      ensures forall d :: 0 <= d < docmap.Length ==> (docmap[d] != 0 <==> 1 <= d <= k)
    {
      assert forall d :: 0 <= d < docmap.Length ==> docmap[d] == docmap[..][d];
    }

    lemma GroupInside(i: nat)
      requires Keyed(index) && index != [] && i < |index|
      ensures !InGroup(index, i, 0) && forall d: nat :: Last() < d ==> !InGroup(index, i, d)
    {}

    /** Documents after the last value keep their numbers. */
    method NumberTail(docmap: array<nat>, first: nat, ghost given: seq<nat>) returns (ghost inverse: seq<nat>)
      requires Paired(docmap[..], given) && MIN <= first == |given| <= docmap.Length
      requires forall d :: 0 <= d < docmap.Length ==> (docmap[d] != 0 <==> 1 <= d < first)
      modifies docmap
      ensures Paired(docmap[..], inverse) && |inverse| == docmap.Length
      ensures forall d :: 0 <= d < docmap.Length ==> (docmap[..][d] != 0 <==> 1 <= d)
      ensures forall d :: 0 <= d < docmap.Length ==> docmap[..][d] == if d < first then old(docmap[..])[d] else d
    {
      hide Paired;
      var newDoc, begin := first, first;
      inverse := given;
      while begin < docmap.Length
        invariant first <= begin == newDoc == |inverse| <= docmap.Length && Paired(docmap[..], inverse)
        invariant forall d :: 0 <= d < docmap.Length ==> docmap[d] == if d < first || begin <= d then old(docmap[d]) else d
      {
        PairedNext(docmap[..], inverse, begin);
        docmap[begin] := newDoc;
        inverse := inverse + [begin];
        newDoc := newDoc + 1;
        begin := begin + 1;
      }
    }

    /** Numbers the documents between the previous value and this one, then the valued document itself. */
    method AssignGroup(docmap: array<nat>, idx: nat, first: nat, ghost given: seq<nat>) returns (newDoc: nat, ghost inverse: seq<nat>)
      requires idx < |index| && Keyed(index) && index[idx].key < docmap.Length
      requires MIN <= first == |given| && Paired(docmap[..], given) && Unassigned(index, docmap[..], idx)
      modifies docmap
      ensures newDoc == |inverse| > first && Paired(docmap[..], inverse) && Grouped(index, docmap[..], idx) && docmap[index[idx].key] == newDoc - 1
      ensures forall d :: 0 <= d < docmap.Length && !InGroup(index, idx, d) ==> docmap[d] == old(docmap[d])
    {
      hide Paired, Keyed;
      newDoc, inverse := first, given;
      var min := MIN;
      if idx != 0 {
        min := min + index[idx - 1].key;
      }
      ghost var start := min;
      GroupStarts(idx);
      var max := index[idx].key;
      while min < max
        invariant start <= min <= max && newDoc == |inverse| == first + (min - start) && Paired(docmap[..], inverse)
        invariant forall d :: start <= d < min ==> docmap[d] == first + (d - start)
        invariant forall d :: 0 <= d < docmap.Length && !(start <= d < min) ==> docmap[d] == old(docmap[d])
      {
        PairedNext(docmap[..], inverse, min);
        docmap[min] := newDoc;
        inverse := inverse + [min];
        newDoc := newDoc + 1;
        min := min + 1;
      }
      PairedNext(docmap[..], inverse, min);
      docmap[min] := newDoc;
      inverse := inverse + [min];
      newDoc := newDoc + 1;
      GroupAssigned(docmap[..], idx, first);
    }

    lemma GroupAssigned(docmap: seq<nat>, idx: nat, first: nat)
      requires idx < |index| && index[idx].key < |docmap| && MIN <= first
      requires forall d :: 0 <= d < |docmap| && InGroup(index, idx, d) ==> docmap[d] == first + (d - (if idx == 0 then 0 else index[idx - 1].key) - 1)
      requires InGroup(index, idx, index[idx].key)
      ensures Grouped(index, docmap, idx)
    {}

    lemma GroupStarts(idx: nat)
      requires Keyed(index) && idx < |index|
      ensures idx > 0 ==> index[idx - 1].key < index[idx].key
      ensures MIN <= index[idx].key
    {}

    lemma KeyUpToLast(i: nat)
      requires Keyed(index) && i < |index|
      ensures index[i].key <= Last()
    {}

    lemma RenumberFacts(perm: seq<nat>)
      requires Valid() && Keyed(index) && index != [] && Shuffled(perm, |index|)
      ensures Keyed(index) && Fits(dataBuf, index) && (forall q :: 0 <= q < |perm| ==> perm[q] < |index| && index[perm[q]].key <= Last())
      ensures |perm| == |index|
    {}

    ghost function Last(): nat
      requires index != []
      reads this`index
    {
      index[|index| - 1].key
    }

    /** Scatters the entries to their new places, if the column fills enough of the segment to
        make that worth while; the decision compares floating-point estimates and is an input here. */
    method FlushDense(docmap: seq<nat>, worthWhile: bool) returns (done: bool, out: seq<Written>)
      requires Fits(dataBuf, index) && |docmap| > 0 && Maps(docmap, index)
      modifies this`index
      ensures done == worthWhile
      ensures done ==> Rearranged(old(index), docmap, index) && Fits(dataBuf, index) && out == Values(dataBuf, index)
      ensures !done ==> index == old(index)
    {
      out := [];
      done := worthWhile;
      if done {
        var buffer := Scatter(docmap);
        out := Gather(docmap, buffer);
      }
    }

    method Scatter(docmap: seq<nat>) returns (buffer: array<BufferedValue>)
      requires |docmap| > 0 && Maps(docmap, index)
      ensures fresh(buffer) && Scattered(buffer[..], index, docmap, |index|)
    {
      hide Scattered, Maps;
      buffer := new BufferedValue[|docmap| - 1](_ => BufferedValue(INVALID, 0, 0));
      ScatteredNone(buffer[..], index, docmap);
      var n := 0;
      while n < |index|
        invariant n <= |index| && Scattered(buffer[..], index, docmap, n)
      {
        ScatterStep(buffer[..], index, docmap, n);
        var newKey := docmap[index[n].key];
        buffer[newKey - MIN] := index[n].(key := newKey);
        n := n + 1;
      }
    }

    /** Collects the places that were filled, and writes their values. */
    method Gather(ghost docmap: seq<nat>, buffer: array<BufferedValue>) returns (out: seq<Written>)
      requires Fits(dataBuf, index) && Maps(docmap, index) && Scattered(buffer[..], index, docmap, |index|)
      modifies this`index
      ensures Rearranged(old(index), docmap, index) && Fits(dataBuf, index) && out == Values(dataBuf, index)
    {
      hide Scattered, Maps, Rearranged, Gathered, ValueOf;
      ghost var before := index;
      index, out := [], [];
      GatheredNone(buffer[..], before, docmap);
      var k := 0;
      while k < buffer.Length
        invariant k <= buffer.Length && Fits(dataBuf, index) && out == Values(dataBuf, index)
        invariant Gathered(index, buffer[..], before, docmap, k)
      {
        GatherStep(index, buffer[..], before, docmap, k, dataBuf);
        if buffer[k].key != INVALID {
          out := out + [Written(buffer[k].key, Payload(buffer[k]))];
          index := index + [buffer[k]];
          assert ValueOf(dataBuf, buffer[k]) == out[|out| - 1] by {
            ValueIs(buffer[k]);
          }
        }
        k := k + 1;
      }
      GatheredAll(index, buffer[..], before, docmap);
    }

    lemma ValueIs(v: BufferedValue)
      requires v.begin + v.size <= |dataBuf|
      ensures ValueOf(dataBuf, v) == Written(v.key, Payload(v))
    {}

    /** Rewrites the keys and sorts the entries by them. */
    method FlushSparse(docmap: seq<nat>) returns (out: seq<Written>)
      requires Fits(dataBuf, index) && Maps(docmap, index)
      modifies this`index
      ensures Rearranged(old(index), docmap, index) && Fits(dataBuf, index) && out == Values(dataBuf, index)
    {
      hide Maps, Rearranged, Distinct, Orders, Ascends, SameElements, Fits, ByKey;
      ghost var before := index;
      Rekey(docmap);
      var less := (a: BufferedValue, b: BufferedValue) => a.key < b.key;
      MovedDistinct(before, docmap, less);
      index := Sort(index, less);
      MovedFits(dataBuf, before, docmap);
      SameMembers(index, Moved(before, docmap));
      SortedByKey(index, before, docmap, less);
      out := FlushAlreadySorted();
    }

    method Rekey(docmap: seq<nat>)
      requires Maps(docmap, index)
      modifies this`index
      ensures index == Moved(old(index), docmap)
    {
      ghost var before := index;
      var n := 0;
      while n < |index|
        invariant n <= |index| == |before|
        invariant forall i :: 0 <= i < n ==> index[i] == Moved(before, docmap)[i]
        invariant forall i :: n <= i < |before| ==> index[i] == before[i]
      {
        index := index[n := index[n].(key := docmap[index[n].key])];
        n := n + 1;
      }
    }

    lemma SortedByKey(s: seq<BufferedValue>, before: seq<BufferedValue>, docmap: seq<nat>, less: (BufferedValue, BufferedValue) -> bool)
      requires Ascends(less, s) && (forall a, b :: less(a, b) <==> a.key < b.key)
      requires Maps(docmap, before) && (forall v :: v in s <==> v in Moved(before, docmap)) && Fits(dataBuf, before)
      ensures Rearranged(before, docmap, s) && Fits(dataBuf, s)
    {
      MovedFits(dataBuf, before, docmap);
      forall i | 0 <= i < |s|
        ensures s[i].begin + s[i].size <= |dataBuf|
      {
        assert s[i] in s;
      }
    }

    /** Flushes the column of a segment whose documents have been renumbered; an empty map keeps them. What is written is also
        what the column is left with. */
    method Flush(docmap: seq<nat>, worthWhile: bool) returns (out: seq<Written>)
      requires Valid() && pendingKey < EOF && forall i :: 0 <= i < |index| ==> index[i].key < EOF
      requires docmap != [] ==> MapsAll(docmap, Stored() + Pending())
      modifies this
      ensures docmap == [] ==> out == old(Stored() + Pending())
      ensures docmap != [] ==> Relocated(old(Stored() + Pending()), docmap, out)
      ensures Fits(dataBuf, index) && out == Values(dataBuf, index)
    {
      hide Rearranged, Relocated, MapsAll, Maps, Keyed;
      ghost var contents := Stored() + Pending();
      assert Stored() + [] == Stored();
      Prepare(EOF);
      if |index| == 0 {
        RelocatedNone(docmap);
        return [];
      }
      if docmap == [] {
        out := FlushAlreadySorted();
        return;
      }
      MapsStored(dataBuf, index, docmap);
      ghost var before := index;
      var done;
      done, out := FlushDense(docmap, worthWhile);
      if !done {
        out := FlushSparse(docmap);
      }
      RelocatedNow(dataBuf, before, docmap, index);
    }
  }

  /** A renumbering that keeps the documents of a list of values apart. */
  ghost predicate MapsAll(docmap: seq<nat>, c: seq<Written>) {
    && (forall i :: 0 <= i < |c| ==> c[i].doc < |docmap| && MIN <= docmap[c[i].doc] < |docmap|)
    && forall i, j :: 0 <= i < j < |c| ==> docmap[c[i].doc] != docmap[c[j].doc]
  }

  /** The same values under their new numbers, by increasing new number. */
  ghost predicate Relocated(c: seq<Written>, docmap: seq<nat>, out: seq<Written>) {
    && MapsAll(docmap, c)
    && (forall i, j :: 0 <= i < j < |out| ==> out[i].doc < out[j].doc)
    && (forall i :: 0 <= i < |c| ==> Written(docmap[c[i].doc], c[i].value) in out)
    && forall k :: 0 <= k < |out| ==> exists i :: 0 <= i < |c| && out[k] == Written(docmap[c[i].doc], c[i].value)
  }

  lemma RelocatedNone(docmap: seq<nat>)
    ensures Relocated([], docmap, [])
  {}

  lemma MapsStored(data: Bytes, index: seq<BufferedValue>, docmap: seq<nat>)
    requires Fits(data, index) && MapsAll(docmap, Values(data, index))
    ensures Maps(docmap, index)
  {
    assert forall i :: 0 <= i < |index| ==> Values(data, index)[i].doc == index[i].key;
  }

  lemma RelocatedNow(data: Bytes, before: seq<BufferedValue>, docmap: seq<nat>, after: seq<BufferedValue>)
    requires Fits(data, before) && Fits(data, after) && Rearranged(before, docmap, after) && MapsAll(docmap, Values(data, before))
    ensures Relocated(Values(data, before), docmap, Values(data, after))
  {
    var c, out, moved := Values(data, before), Values(data, after), Moved(before, docmap);
    hide Maps, MapsAll;
    forall i | 0 <= i < |c|
      ensures Written(docmap[c[i].doc], c[i].value) in out
    {
      assert moved[i] in moved;
      var k :| 0 <= k < |after| && after[k] == moved[i];
      assert out[k] == Written(docmap[c[i].doc], c[i].value);
    }
    forall k | 0 <= k < |out|
      ensures exists i :: 0 <= i < |c| && out[k] == Written(docmap[c[i].doc], c[i].value)
    {
      assert after[k] in after;
      var i :| 0 <= i < |moved| && moved[i] == after[k];
      assert out[k] == Written(docmap[c[i].doc], c[i].value);
    }
  }

  lemma MovedFits(data: Bytes, index: seq<BufferedValue>, docmap: seq<nat>)
    requires Fits(data, index) && Maps(docmap, index)
    ensures Fits(data, Moved(index, docmap))
    ensures forall v :: v in Moved(index, docmap) ==> v.begin + v.size <= |data|
  {}

  lemma MovedDistinct(index: seq<BufferedValue>, docmap: seq<nat>, less: (BufferedValue, BufferedValue) -> bool)
    requires Maps(docmap, index) && forall a, b :: less(a, b) <==> a.key < b.key
    ensures Distinct(Moved(index, docmap)) && Orders(less, Moved(index, docmap))
  {
    var moved := Moved(index, docmap);
    forall x, y | x in moved && y in moved && x != y
      ensures less(x, y) || less(y, x)
    {
      var i :| 0 <= i < |moved| && moved[i] == x;
      var j :| 0 <= j < |moved| && moved[j] == y;
    }
  }

  function Iota(n: nat): (s: seq<nat>)
    ensures |s| == n && forall i :: 0 <= i < n ==> s[i] == i
  {
    seq<nat>(n, i requires 0 <= i < n => i)
  }
}