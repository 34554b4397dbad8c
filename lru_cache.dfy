/**
 `LRUCache`: evicts the head of `order`. Only an overwriting `put` moves a key
 to the tail; `get` is a plain lookup and leaves `order` alone.
 */
module LruCache {
  import opened Wrappers
  import opened ListOps
  import opened BaseCaching

  class LRUCache<K(==), V> {
    /** The primary key/value map. */
    var cacheData: map<K, V>
    /** Keys from least to most recently put. */
    var order: seq<K>

    ghost predicate Valid()
      reads this
    {
      Tracks(cacheData.Keys, order)
    }

    constructor ()
      ensures Valid()
      ensures cacheData == map[] && order == []
    {
      cacheData := map[];
      order := [];
    }

    /**
     Stores `item` under `key`. A `None` key or item is ignored; an existing key
     gets its new value and moves to the tail of `order`, the other keys keeping
     their relative order; a new key arriving when the cache holds `MAX_ITEMS`
     entries first evicts the head of `order`, which is returned.
     */
    method Put(key: Option<K>, item: Option<V>) returns (discarded: Option<K>)
      requires Valid()
      modifies this
      ensures Valid()
      ensures |old(cacheData)| <= MAX_ITEMS ==> |cacheData| <= MAX_ITEMS
      ensures key.None? || item.None? ==>
        cacheData == old(cacheData) && order == old(order) && discarded == None
      ensures key.Some? && item.Some? && key.value in old(cacheData) ==>
        && key.value in old(order)
        && cacheData == old(cacheData)[key.value := item.value]
        && order == Remove(old(order), key.value) + [key.value]
        && discarded == None
      ensures key.Some? && item.Some? && key.value !in old(cacheData) ==>
        && discarded == (if |old(cacheData)| >= MAX_ITEMS then Some(old(order)[0]) else None)
        && cacheData == (if discarded.Some? then old(cacheData) - {discarded.value} else old(cacheData))[key.value := item.value]
        && order == (if discarded.Some? then old(order)[1..] else old(order)) + [key.value]
    {
      discarded := None;
      if key.Some? && item.Some? {
        var k := key.value;
        if k in cacheData {
          TracksMoveToEnd(cacheData.Keys, order, k);
          cacheData := cacheData[k := item.value];
          order := Remove(order, k) + [k];
        } else {
          var data, keys := cacheData, order;
          if |data| >= MAX_ITEMS {
            var lruKey := keys[0];
            TracksPopFirst(data.Keys, keys);
            data, keys := data - {lruKey}, keys[1..];
            discarded := Some(lruKey);
          }
          TracksAppend(data.Keys, keys, k);
          cacheData, order := data[k := item.value], keys + [k];
        }
      }
    }

    /** The value stored under `key`, or `None`; `order` is not touched. */
    method Get(key: Option<K>) returns (r: Option<V>)
      requires Valid()
      ensures r.Some? <==> key.Some? && key.value in cacheData
      ensures r.Some? ==> r.value == cacheData[key.value]
    {
      r := if key.Some? && key.value in cacheData then Some(cacheData[key.value]) else None;
    }
  }

  /**
   From a full cache that received keys 1 to 4 in that order: reading key 1
   does not protect it, the next new key still evicts it.
   */
  method LruGetDoesNotRefresh(c: LRUCache<int, int>) returns (read: Option<int>, discarded: Option<int>)
    requires c.Valid() && c.order == [1, 2, 3, 4] && c.cacheData == map[1 := 10, 2 := 20, 3 := 30, 4 := 40]
    modifies c
    ensures read == Some(10) && discarded == Some(1)
  {
    read := c.Get(Some(1));
    discarded := c.Put(Some(5), Some(50));
  }

  /**
   From the same state, overwriting key 1 does protect it: the next new key
   evicts key 2 instead.
   */
  method LruOverwriteRefreshes(c: LRUCache<int, int>) returns (discarded: Option<int>)
    requires c.Valid() && c.order == [1, 2, 3, 4] && c.cacheData == map[1 := 10, 2 := 20, 3 := 30, 4 := 40]
    modifies c
    ensures discarded == Some(2)
  {
    var d := c.Put(Some(1), Some(11));
    assert IndexOf([1, 2, 3, 4], 1) == 0;
    assert c.order == [2, 3, 4, 1];
    discarded := c.Put(Some(5), Some(50));
  }
}
