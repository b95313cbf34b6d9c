/** The row handle the accumulator is driven with: a candidate row that can be
    compared against a stored row id without being materialised, and that is
    materialised (its row id extracted) only when `AllocateRowId` is called. */
module RowReferences {

  /** `Long.compare`: the comparison strategy every scenario uses, smaller
      row ids being better. */
  function LongCompare(x: int, y: int): (r: int)
    ensures r == -1 || r == 0 || r == 1
    ensures r < 0 <==> x < y
    ensures r == 0 <==> x == y
    ensures r > 0 <==> y < x
  {
    if x < y then -1 else if x == y then 0 else 1
  }

  /** The testing row handle: a mutable row id and a flag recording whether
      the row id has been extracted since it was last set. */
  class TestingRowReference {
    var rowId: int
    var rowIdExtracted: bool

    constructor ()
      ensures rowId == 0 && !rowIdExtracted
    {
      rowId := 0;
      rowIdExtracted := false;
    }

    /** Points the handle at another row; the new row has not been extracted. */
    method SetRowId(id: int)
      modifies this
      ensures rowId == id && !rowIdExtracted
    {
      rowId := id;
      rowIdExtracted := false;
    }

    method IsRowIdExtracted() returns (extracted: bool)
      ensures extracted <==> rowIdExtracted
    {
      extracted := rowIdExtracted;
    }

    /** Compares this candidate with a stored row id without side effects:
        negative when the candidate is better. */
    method CompareTo(otherRowId: int) returns (c: int)
      ensures c < 0 <==> rowId < otherRowId
      ensures c == 0 <==> rowId == otherRowId
      ensures c > 0 <==> otherRowId < rowId
    {
      c := LongCompare(rowId, otherRowId);
    }

    /** Materialises the candidate: records the extraction and hands out the
        current row id. */
    method AllocateRowId() returns (id: int)
      modifies this
      ensures id == rowId == old(rowId) && rowIdExtracted
    {
      rowIdExtracted := true;
      id := rowId;
    }
  }
}
