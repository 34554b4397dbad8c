/**
 Page-number pagination over a dataset of rows, with hypermedia links to the
 neighbouring pages. The dataset, which the server reads once from a CSV file,
 is passed in as a sequence.
 */
module HypermediaPagination {
  import opened Wrappers
  import opened SimpleHelper

  function Min(a: int, b: int): int
  {
    if a <= b then a else b
  }

  /**
   `get_page`: the rows on page `page`, or nothing when the page starts at or
   beyond the end of the dataset. A page near the end may be shorter.
   */
  function GetPage<T>(dataset: seq<T>, page: int, pageSize: int): (r: seq<T>)
    requires page > 0 && pageSize > 0
    ensures |r| <= pageSize
    ensures r == [] <==> IndexRange(page, pageSize).0 >= |dataset|
    ensures IndexRange(page, pageSize).0 < |dataset| ==>
      |r| == Min(pageSize, |dataset| - IndexRange(page, pageSize).0)
    ensures forall j :: 0 <= j < |r| ==> r[j] == dataset[IndexRange(page, pageSize).0 + j]
  {
    var (start, end) := IndexRange(page, pageSize);
    IndexRangeBounds(page, pageSize);
    if start >= |dataset| then [] else dataset[start..Min(end, |dataset|)]
  }

  /** `math.ceil(n / pageSize)` on integers: the fewest pages of width `pageSize` that hold `n` rows. */
  function TotalPages(n: nat, pageSize: int): (r: nat)
    requires pageSize > 0
    ensures r * pageSize >= n
    ensures r > 0 ==> (r - 1) * pageSize < n
  {
    var r := (n + pageSize - 1) / pageSize;
    assert r * pageSize <= n + pageSize - 1 < (r + 1) * pageSize;
    r
  }

  /** A page has rows exactly when its number is at most the page count. */
  lemma PageNonEmptyIffWithinTotal<T>(dataset: seq<T>, page: int, pageSize: int)
    requires page > 0 && pageSize > 0
    ensures GetPage(dataset, page, pageSize) != [] <==> page <= TotalPages(|dataset|, pageSize)
  {
    var total := TotalPages(|dataset|, pageSize);
    if page <= total {
      assert (page - 1) * pageSize <= (total - 1) * pageSize;
    } else {
      assert (page - 1) * pageSize >= total * pageSize;
    }
  }

  /** Row `i` is at position `i % pageSize` of page `i / pageSize + 1`. */
  lemma RowOnItsPage<T>(dataset: seq<T>, i: int, pageSize: int)
    requires 0 <= i < |dataset| && pageSize > 0
    ensures i % pageSize < |GetPage(dataset, i / pageSize + 1, pageSize)|
    ensures GetPage(dataset, i / pageSize + 1, pageSize)[i % pageSize] == dataset[i]
  {
    var page := i / pageSize + 1;
    assert IndexRange(page, pageSize).0 == i - i % pageSize;
  }

  /** Pages 1 to `count`, one after another. */
  function Pages<T>(dataset: seq<T>, pageSize: int, count: nat): seq<T>
    requires pageSize > 0
  {
    if count == 0 then [] else Pages(dataset, pageSize, count - 1) + GetPage(dataset, count, pageSize)
  }

  /** The first `count` pages, read in order, are the first `count * pageSize` rows. */
  lemma {:induction false} PagesArePrefix<T>(dataset: seq<T>, pageSize: int, count: nat)
    requires pageSize > 0
    ensures Pages(dataset, pageSize, count) == dataset[..Min(count * pageSize, |dataset|)]
  {
    if count > 0 {
      PagesArePrefix(dataset, pageSize, count - 1);
      var start := (count - 1) * pageSize;
      assert start + pageSize == count * pageSize;
      var before := Min(start, |dataset|);
      var after := Min(count * pageSize, |dataset|);
      var page := GetPage(dataset, count, pageSize);
      if start >= |dataset| {
        assert before == after && page == [];
      } else {
        assert |page| == after - before;
        assert page == dataset[before..after];
        assert dataset[..before] + dataset[before..after] == dataset[..after];
      }
    }
  }

  /** Reading every page from 1 to the page count gives back the whole dataset. */
  lemma AllPagesAreDataset<T>(dataset: seq<T>, pageSize: int)
    requires pageSize > 0
    ensures Pages(dataset, pageSize, TotalPages(|dataset|, pageSize)) == dataset
  {
    PagesArePrefix(dataset, pageSize, TotalPages(|dataset|, pageSize));
  }

  /** The dictionary `get_hyper` returns. */
  datatype Hyper<T> = Hyper(
    pageSize: nat,
    page: int,
    data: seq<T>,
    nextPage: Option<int>,
    prevPage: Option<int>,
    totalPages: nat)

  /**
   `get_hyper`: page `page` with its length, the page count, and links to the
   next page (while the page count is not reached) and the previous page
   (from page 2 on).
   */
  function GetHyper<T>(dataset: seq<T>, page: int, pageSize: int): (h: Hyper<T>)
    requires page > 0 && pageSize > 0
    ensures h.page == page && h.data == GetPage(dataset, page, pageSize)
    ensures h.totalPages == TotalPages(|dataset|, pageSize)
    ensures h.pageSize == |h.data| <= pageSize
    ensures h.nextPage.Some? ==> h.nextPage.value == page + 1
    ensures h.nextPage.Some? <==> GetPage(dataset, page + 1, pageSize) != []
    ensures h.prevPage.Some? ==> h.prevPage.value == page - 1
    ensures h.prevPage.Some? <==> page > 1
    ensures h.data != [] <==> page <= h.totalPages
  {
    var data := GetPage(dataset, page, pageSize);
    var total := TotalPages(|dataset|, pageSize);
    PageNonEmptyIffWithinTotal(dataset, page, pageSize);
    PageNonEmptyIffWithinTotal(dataset, page + 1, pageSize);
    Hyper(
      |data|,
      page,
      data,
      if page < total then Some(page + 1) else None,
      if page > 1 then Some(page - 1) else None,
      total)
  }

  /**
   From a page with rows, the previous-page link leads to a full page: only
   the last page can be short.
   */
  lemma PrevPageIsFull<T>(dataset: seq<T>, page: int, pageSize: int)
    requires page > 0 && pageSize > 0
    requires GetHyper(dataset, page, pageSize).data != []
    requires GetHyper(dataset, page, pageSize).prevPage.Some?
    ensures |GetPage(dataset, page - 1, pageSize)| == pageSize
  {
    assert IndexRange(page - 1, pageSize).0 + pageSize == IndexRange(page, pageSize).0;
  }
}
