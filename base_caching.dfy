/**
 What the caches take from their common base class: the capacity constant, and
 the consistency between the keys of the primary map and the order list that
 every cache keeps, with the ways the caches edit that list.
 The base class file itself (base_caching.py) is not part of this model.
 */
module BaseCaching {
  import opened ListOps

  /** `BaseCaching.MAX_ITEMS`, the capacity every cache compares its size with. */
  const MAX_ITEMS: nat := 4

  /**
   `order` lists keys of `keys` without repetition, as many as there are
   keys; so it lists all of them (TrackedKeys).
   */
  ghost predicate Tracks<K>(keys: set<K>, order: seq<K>)
  {
    && NoDup(order)
    && |order| == |keys|
    && (forall i :: 0 <= i < |order| ==> order[i] in keys)
  }

  /** The keys listed in `order` are exactly `keys`. */
  lemma TrackedKeys<K>(keys: set<K>, order: seq<K>)
    requires Tracks(keys, order)
    ensures forall k :: k in keys <==> k in order
  {
    NoDupCardinality(order);
    var listed := Elements(order);
    assert listed <= keys;
    assert |keys - listed| == |keys| - |listed|;
  }

  /** `order.append(key)` for a new key. */
  lemma TracksAppend<K>(keys: set<K>, order: seq<K>, k: K)
    requires Tracks(keys, order) && k !in keys
    ensures Tracks(keys + {k}, order + [k])
  {
    TrackedKeys(keys, order);
    NoDupAppend(order, k);
  }

  /** `order.pop(0)` together with deleting that key. */
  lemma TracksPopFirst<K>(keys: set<K>, order: seq<K>)
    requires Tracks(keys, order) && |order| > 0
    ensures Tracks(keys - {order[0]}, order[1..])
  {
    NoDupTail(order);
  }

  /** `order.pop()` together with deleting that key. */
  lemma TracksPopLast<K>(keys: set<K>, order: seq<K>)
    requires Tracks(keys, order) && |order| > 0
    ensures Tracks(keys - {order[|order| - 1]}, order[..|order| - 1])
  {
    NoDupFront(order);
  }

  /** `order.remove(key)` together with deleting that key. */
  lemma TracksRemove<K>(keys: set<K>, order: seq<K>, k: K)
    requires Tracks(keys, order) && k in keys
    ensures k in order
    ensures Tracks(keys - {k}, Remove(order, k))
  {
    TrackedKeys(keys, order);
    RemoveFacts(order, k);
    var r := Remove(order, k);
    forall i | 0 <= i < |r| ensures r[i] in keys - {k} {
      assert r[i] in r;
    }
  }

  /** `order.remove(key)` then `order.append(key)`: the key moves to the tail. */
  lemma TracksMoveToEnd<K>(keys: set<K>, order: seq<K>, k: K)
    requires Tracks(keys, order) && k in keys
    ensures k in order
    ensures Tracks(keys, Remove(order, k) + [k])
  {
    TracksRemove(keys, order, k);
    TracksAppend(keys - {k}, Remove(order, k), k);
    assert keys - {k} + {k} == keys;
  }
}
