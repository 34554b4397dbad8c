# Bounded caches and pagination helpers, modelled in Dafny

This project models two parts of the `alx-backend` exercises.

- **Caches.** Five in-memory key/value caches share a capacity of
  `MAX_ITEMS = 4` entries. They differ in the key they evict when a new key
  arrives:
  - `FIFOCache`: the first key inserted;
  - `LIFOCache`: the last key inserted;
  - `LRUCache`: the least recently put key;
  - `MRUCache`: the most recently put or read key;
  - `LFUCache`: the least frequently used key, with ties broken by least
    recent use.

  Each cache is a Dafny `class`. Its fields are the ones the source mutates:
  `cacheData` (the map), `order` (the key list) and, for LFU, `frequency`
  and `minFreq`. `put` and `get` are methods that update those fields in
  place.
  - A Python `None` key or item becomes `Option.None`.
  - The `DISCARD:` line that `put` prints becomes the key `Put` returns.
  - Every class keeps an invariant, `Valid()`: `order` lists the cached keys
    exactly once each. For LFU it also requires that the counts are
    consistent (see `LfuCache.Counts`).
- **Pagination.**
  - `index_range`: the row range of a page.
  - `get_page` and `get_hyper`: page-number pagination with next and
    previous links. These take the dataset as a parameter; the source reads
    it from a CSV file.
  - `indexed_dataset` and `get_hyper_index`: pagination that tolerates
    deleted rows. `get_hyper_index` keeps its `while` loop as a Dafny method
    with loop invariants.

Where the code and the usual description of these caches disagree, the model
follows the code:

- `LRUCache.get` is a plain dictionary lookup and does not refresh recency.
  Only overwriting a key with `put` moves it to the recent end
  (`LruCache.LruGetDoesNotRefresh`).
- `LFUCache.put` runs `discard_lfu` for every new key, whatever the current
  size.
  - The cache can therefore evict while it still has room
    (`LfuCache.LfuEvictsBelowCapacity`).
  - Because `min_freq` goes stale, it can also evict nothing and grow past
    `MAX_ITEMS` (`LfuCache.LfuGrowsPastCapacity`).
  - No size bound is claimed for LFU. What is proved instead:
    - at most one cached key has been used only once;
    - after `discard_lfu`, every remaining key has been used at least twice;
    - as long as only `put` and `get` are called, every key `put` evicts has
      been used exactly once.
- `index_range` appears twice, at 0x00-pagination/0-simple_helper_function.py:9-24
  and at 0x00-pagination/2-hypermedia_pagination.py:10-25. The two copies are
  identical, so it is modelled once, as `SimpleHelper.IndexRange`, and
  `HypermediaPagination` imports it.

Files:
- `wrappers.dfy`: `Option`.
- `list_ops.dfy`: Python's `list.index` and `list.remove` on sequences.
- `base_caching.dfy`: the capacity and the `Tracks` invariant shared by the
  caches.
- One file per source module.

## Model

| member | source | states |
|---|---|---|
| ListOps.IndexOf | 0x01-caching/100-lfu_cache.py:62 | `list.index`: the position holds the element, and the element does not occur earlier |
| ListOps.IndexOfAt | 0x01-caching/100-lfu_cache.py:62 | in a list without duplicates, the element at position i is found at i |
| ListOps.Remove | 0x01-caching/3-lru_cache.py:29 | `list.remove` shortens the list by exactly one |
| ListOps.RemoveFacts | 0x01-caching/3-lru_cache.py:29 | `list.remove` deletes one occurrence (multiset difference) and keeps every other element; on a duplicate-free list the element is gone and no duplicates appear |
| ListOps.NoDupCardinality | 0x01-caching/1-fifo_cache.py:35-36 | a list without duplicates has as many distinct elements as entries |
| BaseCaching.TrackedKeys | 0x01-caching/1-fifo_cache.py:24-36 | when `order` tracks the cached keys, a key is cached exactly when it is in `order` |
| BaseCaching.TracksAppend | 0x01-caching/1-fifo_cache.py:35-36 | inserting a new key and appending it to `order` keeps the two in step |
| BaseCaching.TracksPopFirst | 0x01-caching/1-fifo_cache.py:29-31 | popping the head of `order` and deleting that key keeps the two in step |
| BaseCaching.TracksPopLast | 0x01-caching/2-lifo_cache.py:29-31 | popping the tail of `order` and deleting that key keeps the two in step |
| BaseCaching.TracksRemove | 0x01-caching/100-lfu_cache.py:64-66 | deleting a cached key from the map and from `order` keeps the two in step |
| BaseCaching.TracksMoveToEnd | 0x01-caching/3-lru_cache.py:28-30 | moving a cached key to the end of `order` keeps the two in step |
| FifoCache.FIFOCache.constructor | 0x01-caching/1-fifo_cache.py:12-15 | a new cache is empty and consistent |
| FifoCache.FIFOCache.Put | 0x01-caching/1-fifo_cache.py:17-36 | None is a no-op; an existing key is overwritten with order unchanged; a new key in a full cache evicts the head of `order`; the new key goes at the tail; size never passes `MAX_ITEMS`; the invariant is kept |
| FifoCache.FIFOCache.Get | 0x01-caching/1-fifo_cache.py:38-42 | returns the stored value exactly when the key is present |
| FifoCache.FifoEvictsFirstInserted | 0x01-caching/1-fifo_cache.py:24-36 | in a full cache with 1..4 inserted in order, overwriting 1 does not refresh it, so a new key evicts 1 |
| LifoCache.LIFOCache.constructor | 0x01-caching/2-lifo_cache.py:12-15 | a new cache is empty and consistent |
| LifoCache.LIFOCache.Put | 0x01-caching/2-lifo_cache.py:17-36 | as FIFO, but a new key in a full cache evicts the tail of `order`, the key inserted last; size never passes `MAX_ITEMS` |
| LifoCache.LIFOCache.Get | 0x01-caching/2-lifo_cache.py:38-42 | returns the stored value exactly when the key is present |
| LifoCache.LifoEvictsLastInserted | 0x01-caching/2-lifo_cache.py:24-36 | in a full cache, each new key evicts the one inserted just before it, and older keys stay |
| LruCache.LRUCache.constructor | 0x01-caching/3-lru_cache.py:12-15 | a new cache is empty and consistent |
| LruCache.LRUCache.Put | 0x01-caching/3-lru_cache.py:17-41 | overwriting moves the key to the tail without eviction; a new key in a full cache evicts the head, the least recently put key; size never passes `MAX_ITEMS` |
| LruCache.LRUCache.Get | 0x01-caching/3-lru_cache.py:43-47 | a read-only lookup: value exactly when present, nothing changes |
| LruCache.LruGetDoesNotRefresh | 0x01-caching/3-lru_cache.py:43-47 | reading key 1 of a full cache does not protect it: the next new key still evicts 1 |
| LruCache.LruOverwriteRefreshes | 0x01-caching/3-lru_cache.py:27-37 | overwriting key 1 of a full cache protects it: the next new key evicts 2 |
| MruCache.MRUCache.constructor | 0x01-caching/4-mru_cache.py:12-15 | a new cache is empty and consistent |
| MruCache.MRUCache.Put | 0x01-caching/4-mru_cache.py:17-41 | overwriting moves the key to the tail; a new key in a full cache evicts the tail, the most recently used key; size never passes `MAX_ITEMS` |
| MruCache.MRUCache.Get | 0x01-caching/4-mru_cache.py:43-51 | a present key is returned and moved to the tail; otherwise nothing changes; the map never changes |
| MruCache.MruGetRefreshes | 0x01-caching/4-mru_cache.py:34-51 | after reading key 1 of a full cache, the next new key evicts 1 |
| LfuCache.CountsAfterUse | 0x01-caching/100-lfu_cache.py:38-41 | raising one key's count keeps the count bookkeeping consistent |
| LfuCache.CountsAfterInsert | 0x01-caching/100-lfu_cache.py:30-33 | once every count is at least 2, inserting a key with count 1 and setting `min_freq` to 1 is consistent |
| LfuCache.CountsAfterDiscard | 0x01-caching/100-lfu_cache.py:68-72 | counts all at least 2, with `min_freq` their minimum (0 when empty), are consistent |
| LfuCache.FirstWithFrequency | 0x01-caching/100-lfu_cache.py:57-62 | the result has count `f`, lies in `order`, and no earlier key has count `f`; `None` only when no key has count `f` |
| LfuCache.FirstWithFrequencyIsEarliest | 0x01-caching/100-lfu_cache.py:57-62 | if some key has count `f`, a victim exists and comes no later than that key |
| LfuCache.EarliestIsFirstWithFrequency | 0x01-caching/100-lfu_cache.py:57-62 | a key with count `f` that precedes every other such key is the one `min(..., key=order.index)` returns |
| LfuCache.VictimLeavesRepeatedKeys | 0x01-caching/100-lfu_cache.py:54-66 | in a consistent cache, every key except the victim has count at least 2 |
| LfuCache.RemovalKeepsTracking | 0x01-caching/100-lfu_cache.py:64-66 | deleting the victim from the map, the counts and `order` together keeps them in step |
| LfuCache.InsertionKeepsTracking | 0x01-caching/100-lfu_cache.py:30-32 | inserting a new key into all three structures keeps them in step |
| LfuCache.UseKeepsTracking | 0x01-caching/100-lfu_cache.py:38-41 | updating a key's value and count and moving it to the tail keeps the structures in step |
| LfuCache.MinFrequency | 0x01-caching/100-lfu_cache.py:72 | `min(frequency.values())`: a count that occurs, and no count is smaller |
| LfuCache.EarliestInOrder | 0x01-caching/100-lfu_cache.py:62 | `min(candidates, key=order.index)`: a candidate with the smallest position in `order` |
| LfuCache.LFUCache.constructor | 0x01-caching/100-lfu_cache.py:10-14 | a new cache is empty with `min_freq` 0 |
| LfuCache.LFUCache.LeastFrequentlyUsed | 0x01-caching/100-lfu_cache.py:57-62 | the victim has count `min_freq` and precedes every other key with that count; `None` exactly when no key has that count |
| LfuCache.LFUCache.DiscardLfu | 0x01-caching/100-lfu_cache.py:54-72 | evicts that victim, if any, from the map, counts and `order` together; `min_freq` becomes the smallest remaining count, or 0; every remaining count is at least 2; the invariant is kept |
| LfuCache.LFUCache.Put | 0x01-caching/100-lfu_cache.py:16-41 | None is a no-op; a new key triggers the discard, then is stored with count 1 at the tail and `min_freq` 1; an existing key is overwritten, counted and moved to the tail, with no eviction; with `min_freq` at most 1 before the call, it stays so and any victim had count 1 |
| LfuCache.LFUCache.Get | 0x01-caching/100-lfu_cache.py:43-52 | a present key is returned, its count raised and moved to the tail; otherwise nothing changes; the map and `min_freq` never change |
| LfuCache.LfuEvictsBelowCapacity | 0x01-caching/100-lfu_cache.py:24-33 | in a fresh cache the second new key already evicts the first, with one entry cached |
| LfuCache.LfuGrowsPastCapacity | 0x01-caching/100-lfu_cache.py:24-33 | four keys each used twice with `min_freq` 1: a fifth key evicts nothing and the cache holds five entries |
| SimpleHelper.IndexRange | 0x00-pagination/0-simple_helper_function.py:9-24 | the range is `page_size` wide and ends at `page * page_size` |
| SimpleHelper.IndexRangeBounds | 0x00-pagination/0-simple_helper_function.py:17-23 | page 1 starts at 0, and for page >= 1 and width >= 0, 0 <= start <= end |
| SimpleHelper.PagesAreContiguous | 0x00-pagination/0-simple_helper_function.py:22-24 | page p ends where page p + 1 starts |
| SimpleHelper.PageOfIndex | 0x00-pagination/0-simple_helper_function.py:22-24 | row i lies on page p (p >= 1) exactly when p = i / page_size + 1 |
| HypermediaPagination.GetPage | 0x00-pagination/2-hypermedia_pagination.py:47-74 | at most `page_size` rows; empty exactly when the page starts at or past the end; otherwise `min(page_size, len - start)` rows, equal to the dataset's rows from `start` |
| HypermediaPagination.TotalPages | 0x00-pagination/2-hypermedia_pagination.py:84 | the ceiling of `len / page_size`: enough pages to hold every row, and one page fewer would not be |
| HypermediaPagination.PageNonEmptyIffWithinTotal | 0x00-pagination/2-hypermedia_pagination.py:70-84 | a page has rows exactly when its number is at most `total_pages` |
| HypermediaPagination.RowOnItsPage | 0x00-pagination/2-hypermedia_pagination.py:67-74 | row i appears at position i % page_size of page i / page_size + 1 |
| HypermediaPagination.PagesArePrefix | 0x00-pagination/2-hypermedia_pagination.py:67-74 | pages 1..k, read in order, are the first k * page_size rows |
| HypermediaPagination.AllPagesAreDataset | 0x00-pagination/2-hypermedia_pagination.py:67-84 | pages 1..total_pages, read in order, are the whole dataset |
| HypermediaPagination.GetHyper | 0x00-pagination/2-hypermedia_pagination.py:76-94 | echoes `page`; `page_size` is the row count; `next_page` is `page + 1` and present exactly when that page has rows; `prev_page` is `page - 1` and present exactly from page 2; data is non-empty exactly when page <= `total_pages` |
| HypermediaPagination.PrevPageIsFull | 0x00-pagination/2-hypermedia_pagination.py:91 | from a page with rows, the previous-page link leads to a full page |
| HypermediaDelPagination.IndexedDataset | 0x00-pagination/3-hypermedia_del_pagination.py:31-40 | keys are exactly the positions 0..len-1, and each maps to the row at that position |
| HypermediaDelPagination.IndexedDatasetSize | 0x00-pagination/3-hypermedia_del_pagination.py:37-39 | the index has as many entries as the dataset has rows |
| HypermediaDelPagination.RowsInHasPresent | 0x00-pagination/3-hypermedia_del_pagination.py:53-56 | every row still present between two positions is among the rows gathered between them |
| HypermediaDelPagination.RowsInUndeleted | 0x00-pagination/3-hypermedia_del_pagination.py:37-56 | with nothing deleted, the rows gathered between two positions are the dataset slice between them |
| HypermediaDelPagination.CollectRows | 0x00-pagination/3-hypermedia_del_pagination.py:50-56 | the loop stops after at least one step; it returns the present rows in the scanned positions, in order; at most `page_size` rows; it stops early only with a full page whose last scanned position held a row |
| HypermediaDelPagination.GetHyperIndex | 0x00-pagination/3-hypermedia_del_pagination.py:42-68 | echoes `index`; `page_size` is the row count, at most the requested size; `next_index` is above `index` and below `len(indexed_data)`; the data are the present rows up to `next_index` (or the end), and the page is full unless the end was reached |
| HypermediaDelPagination.GetHyperIndexWithin | 0x00-pagination/3-hypermedia_del_pagination.py:53-61 | the scan is bounded by the dataset length; with no next index, every row present from `index` on is in the data |
| HypermediaDelPagination.GetHyperIndexUndeleted | 0x00-pagination/3-hypermedia_del_pagination.py:42-68 | over a fresh index, the data are the slice `[index, index + page_size)`, clipped to the dataset, and `next_index` is the position right after it |
| HypermediaDelPagination.DeletionHidesLastRow | 0x00-pagination/3-hypermedia_del_pagination.py:53-61 | rows 10, 20, 30 with position 1 deleted: the page of 2 from 0 holds only 10 and has no next index, so 30 is unreachable |
| HypermediaDelPagination.DeletionKeepsLastRowWithin | 0x00-pagination/3-hypermedia_del_pagination.py:53-61 | the same request scanned up to the dataset length returns 10 and 30 |

## Left out

- `base_caching.py` is not part of this model. `BaseCaching.MAX_ITEMS` is the constant 4, and `cache_data` is a field of each class.
- The `print` calls (`DISCARD: ...`) are output only. The evicted key is returned from `Put` instead.
- `100-lfu_cache old.py` is an earlier variant of the LFU cache and is not modelled.
- LfuCache.LFUCache.Put: no bound on the number of cached entries. As written, the cache can exceed `MAX_ITEMS` (see `LfuGrowsPastCapacity`).
- Reading the CSV file, memoising it in `__dataset` and `__indexed_dataset`, and dropping the header row are left out. The dataset is a parameter.
- `truncated_dataset` in `indexed_dataset` is computed and never used, so it is left out.
- HypermediaPagination.TotalPages: `math.ceil` of a float division is modelled as exact integer ceiling division. The two agree while the row count is small enough for floats to be exact.
- The `isinstance(..., int)` assertions are covered by Dafny's types, and the range assertions become preconditions.
- HypermediaDelPagination.GetHyperIndex: `index=None` is excluded by the precondition. In the source it passes the assertion and then fails at the first comparison in the loop.
- The source is missing the `Dict` import in 3-hypermedia_del_pagination.py. That only affects the annotation and is not modelled.
- The i18n Flask applications (0x02-i18n) are routing and template glue over libraries and are not modelled.
- Running time is not modelled, e.g. the linear `list.remove` and `list.index`.

## Findings

| source | as written | input that shows it | evidently intended | confidence | as-written member | corrected member |
|---|---|---|---|---|---|---|
| 0x00-pagination/3-hypermedia_del_pagination.py:53 | the scan and `next_index` are bounded by `len(indexed_data)`, the number of rows still present, not by the largest position a row can have | dataset [10, 20, 30], position 1 deleted, `get_hyper_index(0, 2)`: data [10], `next_index` None; row 30 is never returned | scan up to the original dataset length, so that deleting rows never hides the rows at the end | medium, not executed | HypermediaDelPagination.DeletionHidesLastRow | HypermediaDelPagination.GetHyperIndexWithin |
