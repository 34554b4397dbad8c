/**
 `index_range`: the rows on a 1-based page of a fixed width, as a half-open
 range of 0-based indices. Python integers are unbounded, so the arithmetic
 is exact.
 */
module SimpleHelper {

  /** The `(start, end)` pair for page `page` when each page holds `pageSize` rows. */
  function IndexRange(page: int, pageSize: int): (r: (int, int))
    ensures r.1 - r.0 == pageSize
    ensures r.1 == page * pageSize
  {
    var start := (page - 1) * pageSize;
    (start, start + pageSize)
  }

  /** Page 1 starts at row 0, and a page of a non-negative width starts at or after 0 and ends no earlier. */
  lemma IndexRangeBounds(page: int, pageSize: int)
    requires page >= 1 && pageSize >= 0
    ensures IndexRange(1, pageSize).0 == 0
    ensures 0 <= IndexRange(page, pageSize).0 <= IndexRange(page, pageSize).1
  {
    assert (page - 1) * pageSize >= 0;
  }

  /** Each page ends where the next one starts, so pages neither overlap nor leave gaps. */
  lemma PagesAreContiguous(page: int, pageSize: int)
    ensures IndexRange(page, pageSize).1 == IndexRange(page + 1, pageSize).0
  {
  }

  /**
   For a positive width, row `i >= 0` lies on exactly one page from 1 up:
   page `i / pageSize + 1`.
   */
  lemma PageOfIndex(i: int, page: int, pageSize: int)
    requires i >= 0 && page >= 1 && pageSize > 0
    ensures IndexRange(page, pageSize).0 <= i < IndexRange(page, pageSize).1 <==> page == i / pageSize + 1
  {
    var q := i / pageSize;
    assert q * pageSize <= i < (q + 1) * pageSize;
    if page <= q {
      assert page * pageSize <= q * pageSize;
    } else if page >= q + 2 {
      assert (page - 1) * pageSize >= (q + 1) * pageSize;
    }
  }
}
