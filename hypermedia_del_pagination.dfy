/**
 Deletion-tolerant pagination. The dataset is indexed by row position, rows
 may later be deleted from that index, and a page is read from a start index
 by skipping the positions whose row is gone.
 */
module HypermediaDelPagination {
  import opened Wrappers

  /** `indexed_dataset`: row `i` of the dataset under key `i`, for every position. */
  function IndexedDataset<T>(dataset: seq<T>): (m: map<int, T>)
    ensures forall i :: i in m <==> 0 <= i < |dataset|
    ensures forall i :: 0 <= i < |dataset| ==> m[i] == dataset[i]
  {
    map i | 0 <= i < |dataset| :: dataset[i]
  }

  /** The index has one entry per row: `len(indexed_dataset())` is the dataset length. */
  lemma {:induction false} IndexedDatasetSize<T>(dataset: seq<T>)
    ensures |IndexedDataset(dataset)| == |dataset|
  {
    if dataset != [] {
      var n := |dataset| - 1;
      var front := dataset[..n];
      IndexedDatasetSize(front);
      assert IndexedDataset(dataset).Keys == IndexedDataset(front).Keys + {n};
    }
  }

  /** The rows still present at positions `lo` up to but not including `hi`, by increasing position. */
  function RowsIn<T>(indexedData: map<int, T>, lo: int, hi: int): seq<T>
    decreases hi - lo
  {
    if hi <= lo then []
    else RowsIn(indexedData, lo, hi - 1) + (if hi - 1 in indexedData then [indexedData[hi - 1]] else [])
  }

  /** Every row still present between the two positions is among them. */
  lemma {:induction false} RowsInHasPresent<T>(indexedData: map<int, T>, lo: int, hi: int, i: int)
    requires lo <= i < hi && i in indexedData
    ensures indexedData[i] in RowsIn(indexedData, lo, hi)
    decreases hi - lo
  {
    if i < hi - 1 {
      RowsInHasPresent(indexedData, lo, hi - 1, i);
    }
  }

  /** With nothing deleted, the rows between two positions are the dataset slice between them. */
  lemma {:induction false} RowsInUndeleted<T>(dataset: seq<T>, lo: int, hi: int)
    requires 0 <= lo <= hi <= |dataset|
    ensures RowsIn(IndexedDataset(dataset), lo, hi) == dataset[lo..hi]
    decreases hi - lo
  {
    if lo < hi {
      RowsInUndeleted(dataset, lo, hi - 1);
      assert dataset[lo..hi] == dataset[lo..hi - 1] + [dataset[hi - 1]];
    }
  }

  /** The dictionary `get_hyper_index` returns. */
  datatype HyperIndex<T> = HyperIndex(index: int, nextIndex: Option<int>, pageSize: nat, data: seq<T>)

  /**
   The loop of `get_hyper_index`: from position `index`, gathers the present
   rows until `pageSize` are gathered or position `bound` is reached, and
   returns them with the first position not examined.
   */
  method CollectRows<T>(indexedData: map<int, T>, bound: int, index: int, pageSize: int)
    returns (pageData: seq<T>, currentIndex: int)
    requires index < bound && pageSize > 0
    ensures index < currentIndex <= bound
    ensures pageData == RowsIn(indexedData, index, currentIndex)
    ensures |pageData| <= pageSize
    ensures |pageData| < pageSize ==> currentIndex == bound
    ensures |pageData| == pageSize ==> currentIndex - 1 in indexedData
  {
    pageData := [];
    currentIndex := index;
    while |pageData| < pageSize && currentIndex < bound
      invariant index <= currentIndex <= bound
      invariant pageData == RowsIn(indexedData, index, currentIndex)
      invariant |pageData| <= pageSize
      invariant |pageData| == pageSize ==> currentIndex - 1 in indexedData
      decreases bound - currentIndex
    {
      if currentIndex in indexedData {
        pageData := pageData + [indexedData[currentIndex]];
      }
      currentIndex := currentIndex + 1;
    }
  }

  /**
   `get_hyper_index` as written: it stops at position `len(indexed_data)`,
   the number of rows still present, and offers the next position only below
   that number.
   */
  method GetHyperIndex<T>(indexedData: map<int, T>, index: int, pageSize: int) returns (r: HyperIndex<T>)
    requires 0 <= index < |indexedData| && pageSize > 0
    ensures r.index == index && r.pageSize == |r.data| <= pageSize
    ensures r.nextIndex.Some? ==> index < r.nextIndex.value < |indexedData|
    ensures var end := if r.nextIndex.Some? then r.nextIndex.value else |indexedData|;
      && r.data == RowsIn(indexedData, index, end)
      && (|r.data| < pageSize ==> end == |indexedData|)
      && (|r.data| == pageSize ==> end - 1 in indexedData)
  {
    var pageData, currentIndex := CollectRows(indexedData, |indexedData|, index, pageSize);
    var nextIndex := if currentIndex < |indexedData| then Some(currentIndex) else None;
    r := HyperIndex(index, nextIndex, |pageData|, pageData);
  }

  /**
   `get_hyper_index` with the loop bounded by the length `n` of the dataset
   the index was built from, so that every position that can hold a row is
   examined. When no next position is offered, the page holds every row
   from `index` on.
   */
  method GetHyperIndexWithin<T>(indexedData: map<int, T>, n: int, index: int, pageSize: int) returns (r: HyperIndex<T>)
    requires forall i :: i in indexedData ==> 0 <= i < n
    requires 0 <= index < n && pageSize > 0
    ensures r.index == index && r.pageSize == |r.data| <= pageSize
    ensures r.nextIndex.Some? ==> index < r.nextIndex.value < n
    ensures var end := if r.nextIndex.Some? then r.nextIndex.value else n;
      && r.data == RowsIn(indexedData, index, end)
      && (|r.data| < pageSize ==> end == n)
      && (|r.data| == pageSize ==> end - 1 in indexedData)
    ensures r.nextIndex.None? ==> forall i :: i in indexedData && index <= i ==> indexedData[i] in r.data
  {
    var pageData, currentIndex := CollectRows(indexedData, n, index, pageSize);
    var nextIndex := if currentIndex < n then Some(currentIndex) else None;
    r := HyperIndex(index, nextIndex, |pageData|, pageData);
    if nextIndex.None? {
      forall i | i in indexedData && index <= i
        ensures indexedData[i] in r.data
      {
        RowsInHasPresent(indexedData, index, n, i);
      }
    }
  }

  /**
   Over a freshly indexed dataset, a page is the plain slice of `pageSize`
   rows from `index`, and the next position is the one right after it.
   */
  method GetHyperIndexUndeleted<T>(dataset: seq<T>, index: int, pageSize: int) returns (r: HyperIndex<T>)
    requires 0 <= index < |dataset| && pageSize > 0
    ensures r.index == index
    ensures index + pageSize < |dataset| ==> r.data == dataset[index..index + pageSize] && r.nextIndex == Some(index + pageSize)
    ensures index + pageSize >= |dataset| ==> r.data == dataset[index..] && r.nextIndex == None
  {
    var indexedData := IndexedDataset(dataset);
    IndexedDatasetSize(dataset);
    r := GetHyperIndex(indexedData, index, pageSize);
    var end := if r.nextIndex.Some? then r.nextIndex.value else |dataset|;
    RowsInUndeleted(dataset, index, end);
  }

  /**
   Rows 10, 20, 30 were indexed and row 1 was deleted. As written, the index
   then has two entries, so the scan from 0 stops at position 2: row 30 is
   never returned although the page has room for it, and no next position is
   offered.
   */
  method DeletionHidesLastRow() returns (r: HyperIndex<int>)
    ensures r.data == [10] && r.nextIndex == None
  {
    var indexedData := map[0 := 10, 2 := 30];
    assert RowsIn(indexedData, 0, 1) == [10];
    assert RowsIn(indexedData, 0, 2) == [10];
    r := GetHyperIndex(indexedData, 0, 2);
  }

  /** The same index and request with the scan bounded by the dataset length: row 30 is returned. */
  method DeletionKeepsLastRowWithin() returns (r: HyperIndex<int>)
    ensures r.data == [10, 30] && r.nextIndex == None
  {
    var indexedData := map[0 := 10, 2 := 30];
    assert RowsIn(indexedData, 0, 1) == [10];
    assert RowsIn(indexedData, 0, 2) == [10];
    assert RowsIn(indexedData, 0, 3) == [10, 30];
    r := GetHyperIndexWithin(indexedData, 3, 0, 2);
  }
}
