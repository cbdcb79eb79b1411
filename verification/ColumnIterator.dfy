/** Iterating over the documents of a column that has no bitmap. */
module ColumnIterating {
  import opened Limits

  class RangeColumnIterator {
    const minBase: nat
    const count: nat
    var minDoc: nat
    var maxDoc: nat
    var value: nat

    function Last(): int {
      minBase + count - 1
    }

    /** Before the first document, at one, or after the last. */
    ghost predicate Valid()
      reads this
    {
      && MIN <= minBase && 1 <= count && Last() < EOF
      && if value == INVALID then minDoc == minBase && maxDoc == Last()
         else if value == EOF then maxDoc <= Last() && maxDoc < minDoc
         else minBase <= value <= Last() && minDoc == value + 1 && maxDoc == Last()
    }

    constructor (min: nat, docsCount: nat)
      requires MIN <= min && 1 <= docsCount && min + docsCount - 1 < EOF
      ensures Valid() && value == INVALID && minBase == min && count == docsCount
    {
      minBase, count, minDoc, maxDoc, value := min, docsCount, min, min + docsCount - 1, INVALID;
    }

    /** The least document that is not before the target, or the end. A target past the last
        document is not noticed before the first document has been visited. */
    method Seek(doc: nat) returns (found: nat)
      requires Valid() && doc <= EOF
      modifies this
      ensures Valid() && found == value
      ensures old(value) == INVALID ==> value == if minBase <= doc <= Last() then doc else minBase
      ensures INVALID < old(value) < doc ==> value == if doc <= Last() then doc else EOF
      ensures doc <= old(value) && INVALID < old(value) ==> value == old(value)
    {
      if minDoc <= doc <= maxDoc {
        value, minDoc := doc, doc + 1;
        return value;
      }
      if value == INVALID {
        value, minDoc := minDoc, minDoc + 1;
        return value;
      }
      if value < doc {
        maxDoc, minDoc, value := INVALID, EOF, EOF;
      }
      found := value;
    }

    /** The next document, or the end. */
    method Next() returns (more: bool)
      requires Valid()
      modifies this
      ensures Valid() && more == (value != EOF)
      ensures value == if old(value) == INVALID then minBase else if old(value) < Last() then old(value) + 1 else EOF
    {
      more := minDoc <= maxDoc;
      if more {
        value, minDoc := minDoc, minDoc + 1;
      } else {
        value := EOF;
      }
    }

    method Reset()
      requires Valid()
      modifies this
      ensures Valid() && value == INVALID
    {
      minDoc, maxDoc, value := minBase, Last(), INVALID;
    }

    /** The document before the current one. */
    method PrevDoc() returns (doc: nat)
      requires Valid()
      ensures doc == if value == EOF then maxDoc else if value <= minBase then INVALID else value - 1
    {
      if minBase < value <= maxDoc {
        return value - 1;
      }
      doc := if value > maxDoc then maxDoc else INVALID;
    }
  }
}
