/** `LIFOCache`: evicts the key that was inserted last. */
module LifoCache {
  import opened Wrappers
  import opened ListOps
  import opened BaseCaching

  class LIFOCache<K(==), V> {
    /** The primary key/value map. */
    var cacheData: map<K, V>
    /** Keys in the order they were first inserted; overwrites do not move them. */
    var order: seq<K>

    ghost predicate Valid()
      reads this
    {
      Tracks(cacheData.Keys, order)
    }

    constructor ()
      ensures Valid()
      ensures cacheData == map[] && order == []
    {
      cacheData := map[];
      order := [];
    }

    /**
     Stores `item` under `key`. A `None` key or item is ignored; an existing key
     gets its new value in place; a new key arriving when the cache holds
     `MAX_ITEMS` entries first evicts the tail of `order`, which is returned.
     The other keys keep their relative order and the new key becomes the tail.
     */
    method Put(key: Option<K>, item: Option<V>) returns (discarded: Option<K>)
      requires Valid()
      modifies this
      ensures Valid()
      ensures |old(cacheData)| <= MAX_ITEMS ==> |cacheData| <= MAX_ITEMS
      ensures key.None? || item.None? ==>
        cacheData == old(cacheData) && order == old(order) && discarded == None
      ensures key.Some? && item.Some? && key.value in old(cacheData) ==>
        cacheData == old(cacheData)[key.value := item.value] && order == old(order) && discarded == None
      ensures key.Some? && item.Some? && key.value !in old(cacheData) ==>
        && discarded == (if |old(cacheData)| >= MAX_ITEMS then Some(old(order)[|old(order)| - 1]) else None)
        && cacheData == (if discarded.Some? then old(cacheData) - {discarded.value} else old(cacheData))[key.value := item.value]
        && order == (if discarded.Some? then old(order)[..|old(order)| - 1] else old(order)) + [key.value]
    {
      discarded := None;
      if key.Some? && item.Some? {
        var k := key.value;
        if k in cacheData {
          cacheData := cacheData[k := item.value];
        } else {
          var data, keys := cacheData, order;
          if |data| >= MAX_ITEMS {
            var last := |keys| - 1;
            var lastKey := keys[last];
            TracksPopLast(data.Keys, keys);
            data, keys := data - {lastKey}, keys[..last];
            discarded := Some(lastKey);
          }
          TracksAppend(data.Keys, keys, k);
          cacheData, order := data[k := item.value], keys + [k];
        }
      }
    }

    /** The value stored under `key`, or `None`; nothing changes. */
    method Get(key: Option<K>) returns (r: Option<V>)
      requires Valid()
      ensures r.Some? <==> key.Some? && key.value in cacheData
      ensures r.Some? ==> r.value == cacheData[key.value]
    {
      r := if key.Some? && key.value in cacheData then Some(cacheData[key.value]) else None;
    }
  }

  /**
   From a full cache that received keys 1 to 4 in that order: a new key evicts
   key 4, and the one after it evicts that new key, while key 1 stays.
   */
  method LifoEvictsLastInserted(c: LIFOCache<int, int>) returns (first: Option<int>, second: Option<int>, kept: Option<int>)
    requires c.Valid() && c.order == [1, 2, 3, 4] && c.cacheData == map[1 := 10, 2 := 20, 3 := 30, 4 := 40]
    modifies c
    ensures first == Some(4) && second == Some(5) && kept == Some(10)
  {
    first := c.Put(Some(5), Some(50));
    assert c.order == [1, 2, 3, 5];
    second := c.Put(Some(6), Some(60));
    kept := c.Get(Some(1));
  }
}
