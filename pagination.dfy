/** Offset pagination as the list handlers compute it: a page number and a
    page size turn into LIMIT/OFFSET, and the reply reports the page, the
    page count `ceil(count / limit)`, the total and the page size. */
module Pagination {
  import opened Common

  const DefaultPage: int := 1
  const DefaultLimit: int := 10

  /** The `pagination` object of a list reply. */
  datatype PageInfo = PageInfo(currentPage: int, totalPages: int, totalItems: nat, itemsPerPage: int)

  /** `(page - 1) * limit`: how many rows the page skips. */
  function Offset(page: int, limit: int): (k: int)
    requires page >= 1 && limit > 0
    ensures k >= 0
  {
    MulMonotone(0, page - 1, limit);
    (page - 1) * limit
  }

  function PageInfoOf(page: int, limit: int, count: nat): (p: PageInfo)
    requires limit > 0
    ensures p.currentPage == page && p.itemsPerPage == limit && p.totalItems == count
    ensures p.totalPages >= 0
    ensures (p.totalPages - 1) * limit < count <= p.totalPages * limit
  {
    var n := CeilDiv(count, limit);
    assert n >= 0 by {
      if n < 0 {
        MulMonotone(n, -1, limit);
      }
    }
    PageInfo(page, n, count, limit)
  }

  /** The rows a `LIMIT limit OFFSET offset` query returns from an ordered result. */
  function Window<T>(rows: seq<T>, offset: nat, limit: nat): (w: seq<T>)
    ensures |w| <= limit
    ensures |w| == if offset >= |rows| then 0 else Min(limit, |rows| - offset)
    ensures forall k :: 0 <= k < |w| ==> w[k] == rows[offset + k]
  {
    if offset >= |rows| then [] else rows[offset..Min(offset + limit, |rows|)]
  }

  /** A page of the rows in reverse order holds only rows of the result. */
  lemma WindowOfReversed<T>(rows: seq<T>, offset: nat, limit: nat)
    ensures forall x :: x in Window(Reverse(rows), offset, limit) ==> x in rows
  {
    var shown := Window(Reverse(rows), offset, limit);
    forall x | x in shown ensures x in rows {
      var k :| 0 <= k < |shown| && shown[k] == x;
      assert x == rows[|rows| - 1 - (offset + k)];
    }
  }

  /** Every row of the result is shown on exactly the page `k / limit + 1`,
      at position `k % limit`, and that page is within the reported page count. */
  lemma RowOnItsPage<T>(rows: seq<T>, limit: int, k: int)
    requires limit > 0 && 0 <= k < |rows|
    ensures var page := k / limit + 1;
            && 1 <= page <= PageInfoOf(page, limit, |rows|).totalPages
            && k % limit < |Window(rows, Offset(page, limit), limit)|
            && Window(rows, Offset(page, limit), limit)[k % limit] == rows[k]
  {
    var q, r := k / limit, k % limit;
    var page := q + 1;
    var n := PageInfoOf(page, limit, |rows|).totalPages;
    assert Offset(page, limit) == q * limit;
    assert k == q * limit + r;
    assert page <= n by {
      if page > n {
        MulMonotone(n, q, limit);
      }
    }
  }

  /** A page past the reported page count is empty. */
  lemma PagesPastTheEndEmpty<T>(rows: seq<T>, page: int, limit: int)
    requires page >= 1 && limit > 0
    requires page > PageInfoOf(page, limit, |rows|).totalPages
    ensures Window(rows, Offset(page, limit), limit) == []
  {
    var n := PageInfoOf(page, limit, |rows|).totalPages;
    MulMonotone(n, page - 1, limit);
  }
}
