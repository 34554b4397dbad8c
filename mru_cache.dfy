/**
 `MRUCache`: evicts the tail of `order`, the most recently used key. Both an
 overwriting `put` and a successful `get` move a key to the tail.
 */
module MruCache {
  import opened Wrappers
  import opened ListOps
  import opened BaseCaching

  class MRUCache<K(==), V> {
    /** The primary key/value map. */
    var cacheData: map<K, V>
    /** Keys from least to most recently put or read. */
    var order: seq<K>

    ghost predicate Valid()
      reads this
    {
      Tracks(cacheData.Keys, order)
    }

    constructor ()
      ensures Valid()
      ensures cacheData == map[] && order == []
    {
      cacheData := map[];
      order := [];
    }

    /**
     Stores `item` under `key`. A `None` key or item is ignored; an existing key
     gets its new value and moves to the tail of `order`, the other keys keeping
     their relative order; a new key arriving when the cache holds `MAX_ITEMS`
     entries first evicts the tail of `order`, which is returned.
     */
    method Put(key: Option<K>, item: Option<V>) returns (discarded: Option<K>)
      requires Valid()
      modifies this
      ensures Valid()
      ensures |old(cacheData)| <= MAX_ITEMS ==> |cacheData| <= MAX_ITEMS
      ensures key.None? || item.None? ==>
        cacheData == old(cacheData) && order == old(order) && discarded == None
      ensures key.Some? && item.Some? && key.value in old(cacheData) ==>
        && key.value in old(order)
        && cacheData == old(cacheData)[key.value := item.value]
        && order == Remove(old(order), key.value) + [key.value]
        && discarded == None
      ensures key.Some? && item.Some? && key.value !in old(cacheData) ==>
        && discarded == (if |old(cacheData)| >= MAX_ITEMS then Some(old(order)[|old(order)| - 1]) else None)
        && cacheData == (if discarded.Some? then old(cacheData) - {discarded.value} else old(cacheData))[key.value := item.value]
        && order == (if discarded.Some? then old(order)[..|old(order)| - 1] else old(order)) + [key.value]
    {
      discarded := None;
      if key.Some? && item.Some? {
        var k := key.value;
        if k in cacheData {
          TracksMoveToEnd(cacheData.Keys, order, k);
          cacheData := cacheData[k := item.value];
          order := Remove(order, k) + [k];
        } else {
          var data, keys := cacheData, order;
          if |data| >= MAX_ITEMS {
            var last := |keys| - 1;
            var mruKey := keys[last];
            TracksPopLast(data.Keys, keys);
            data, keys := data - {mruKey}, keys[..last];
            discarded := Some(mruKey);
          }
          TracksAppend(data.Keys, keys, k);
          cacheData, order := data[k := item.value], keys + [k];
        }
      }
    }

    /**
     The value stored under `key`, or `None`. A key that is present moves to the
     tail of `order`; otherwise nothing changes. The map is never changed.
     */
    method Get(key: Option<K>) returns (r: Option<V>)
      requires Valid()
      modifies this
      ensures Valid()
      ensures cacheData == old(cacheData)
      ensures r.Some? <==> key.Some? && key.value in cacheData
      ensures r.Some? ==> r.value == cacheData[key.value]
      ensures r.Some? ==> key.value in old(order) && order == Remove(old(order), key.value) + [key.value]
      ensures r.None? ==> order == old(order)
    {
      if key.None? || key.value !in cacheData {
        return None;
      }
      var k := key.value;
      TracksMoveToEnd(cacheData.Keys, order, k);
      order := Remove(order, k) + [k];
      r := Some(cacheData[k]);
    }
  }

  /**
   From a full cache that received keys 1 to 4 in that order: reading key 1
   makes it the most recently used, so the next new key evicts it.
   */
  method MruGetRefreshes(c: MRUCache<int, int>) returns (read: Option<int>, discarded: Option<int>)
    requires c.Valid() && c.order == [1, 2, 3, 4] && c.cacheData == map[1 := 10, 2 := 20, 3 := 30, 4 := 40]
    modifies c
    ensures read == Some(10) && discarded == Some(1)
  {
    read := c.Get(Some(1));
    assert IndexOf([1, 2, 3, 4], 1) == 0;
    assert c.order == [2, 3, 4, 1];
    discarded := c.Put(Some(5), Some(50));
  }
}
