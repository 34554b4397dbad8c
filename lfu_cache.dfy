/**
 `LFUCache`: evicts, among the keys whose use count equals `minFreq`, the one
 earliest in `order`.

 As written, `put` calls `DiscardLfu` for every new key whatever the size of
 the cache, and `minFreq` is recomputed only inside `DiscardLfu` and reset to 1
 after every insertion. So the cache can evict while it has room and can grow
 beyond `MAX_ITEMS`; no size bound is claimed here. What does hold is stated on
 the class: at most one cached key has been used only once, and after any
 sequence of `Put` and `Get` the victim of an eviction is that key.
 */
module LfuCache {
  import opened Wrappers
  import opened ListOps
  import opened BaseCaching

  /** No two cached keys both have use count 1. */
  ghost predicate AtMostOneUsedOnce<K>(frequency: map<K, nat>)
  {
    forall a, b :: a in frequency && b in frequency && frequency[a] == 1 && frequency[b] == 1 ==> a == b
  }

  /**
   The bookkeeping `LFUCache` keeps on its counts: every count is at least 1
   and at least `minFreq`, `minFreq` is 0 exactly when nothing is cached, and
   at most one key has count 1.
   */
  ghost predicate Counts<K>(frequency: map<K, nat>, minFreq: nat)
  {
    && (forall k :: k in frequency ==> 1 <= frequency[k])
    && (forall k :: k in frequency ==> minFreq <= frequency[k])
    && (minFreq == 0 <==> frequency == map[])
    && AtMostOneUsedOnce(frequency)
  }

  /** Using a cached key once more keeps the bookkeeping. */
  lemma CountsAfterUse<K>(frequency: map<K, nat>, minFreq: nat, k: K)
    requires Counts(frequency, minFreq) && k in frequency
    ensures Counts(frequency[k := frequency[k] + 1], minFreq)
  {
  }

  /**
   Once every count is at least 2, a new key with count 1 and `minFreq` set
   to 1 give consistent bookkeeping again.
   */
  lemma CountsAfterInsert<K>(frequency: map<K, nat>, k: K)
    requires k !in frequency
    requires forall j :: j in frequency ==> 2 <= frequency[j]
    ensures Counts(frequency[k := 1], 1)
  {
    var counts := frequency[k := 1];
    assert k in counts;
    assert forall j :: j in counts && counts[j] == 1 ==> j == k;
  }

  /**
   When every count is at least 2 and `minFreq` is their minimum (0 for an
   empty cache), the bookkeeping is consistent.
   */
  lemma CountsAfterDiscard<K>(frequency: map<K, nat>, minFreq: nat)
    requires forall k :: k in frequency ==> 2 <= frequency[k]
    requires frequency == map[] ==> minFreq == 0
    requires frequency != map[] ==> minFreq in frequency.Values && forall k :: k in frequency ==> minFreq <= frequency[k]
    ensures Counts(frequency, minFreq)
  {
    if frequency != map[] {
      var k :| k in frequency && frequency[k] == minFreq;
    }
  }

  /**
   The key `discard_lfu` picks: the first key in `order` whose count is `f`,
   if there is one.
   */
  function FirstWithFrequency<K>(order: seq<K>, frequency: map<K, nat>, f: nat): (r: Option<K>)
    requires forall i :: 0 <= i < |order| ==> order[i] in frequency
    ensures r.Some? ==> r.value in order && r.value in frequency && frequency[r.value] == f
    ensures r.Some? ==> forall j :: 0 <= j < IndexOf(order, r.value) ==> frequency[order[j]] != f
    ensures r.None? ==> forall j :: 0 <= j < |order| ==> frequency[order[j]] != f
  {
    if order == [] then None
    else if frequency[order[0]] == f then Some(order[0])
    else
      var r := FirstWithFrequency(order[1..], frequency, f);
      assert r.Some? ==> IndexOf(order, r.value) == 1 + IndexOf(order[1..], r.value);
      r
  }

  /**
   The first key with count `f` comes before every other key with count `f`:
   it is the minimum of those keys by position in `order`.
   */
  lemma FirstWithFrequencyIsEarliest<K>(order: seq<K>, frequency: map<K, nat>, f: nat, k: K)
    requires forall i :: 0 <= i < |order| ==> order[i] in frequency
    requires k in order && frequency[k] == f
    ensures FirstWithFrequency(order, frequency, f).Some?
    ensures IndexOf(order, FirstWithFrequency(order, frequency, f).value) <= IndexOf(order, k)
  {
    var i := IndexOf(order, k);
    assert frequency[order[i]] == f;
  }

  /**
   A key with count `f` that comes no later than any other key with count `f`
   is the one `FirstWithFrequency` finds.
   */
  lemma EarliestIsFirstWithFrequency<K>(order: seq<K>, frequency: map<K, nat>, f: nat, best: K)
    requires forall i :: 0 <= i < |order| ==> order[i] in frequency
    requires best in order && frequency[best] == f
    requires forall k :: k in order && frequency[k] == f ==> IndexOf(order, best) <= IndexOf(order, k)
    ensures FirstWithFrequency(order, frequency, f) == Some(best)
  {
    FirstWithFrequencyIsEarliest(order, frequency, f, best);
    var v := FirstWithFrequency(order, frequency, f).value;
    assert IndexOf(order, best) <= IndexOf(order, v);
  }

  /**
   Whatever `discard_lfu` evicts, every key left has count at least 2: with
   `minFreq` at 1 the only key used once is the victim, and with `minFreq`
   above 1 no key was used once.
   */
  lemma VictimLeavesRepeatedKeys<K>(order: seq<K>, frequency: map<K, nat>, minFreq: nat)
    requires Tracks(frequency.Keys, order) && Counts(frequency, minFreq)
    ensures forall i :: 0 <= i < |order| ==> order[i] in frequency
    ensures var d := FirstWithFrequency(order, frequency, minFreq);
      forall k :: k in frequency && (d.None? || k != d.value) ==> 2 <= frequency[k]
  {
    TrackedKeys(frequency.Keys, order);
  }

  /** Dropping a cached key from the map, the counts and `order` keeps them in step. */
  lemma RemovalKeepsTracking<K, V>(data: map<K, V>, counts: map<K, nat>, keys: seq<K>, k: K)
    requires Tracks(data.Keys, keys) && counts.Keys == data.Keys && k in data
    ensures k in keys
    ensures Tracks((data - {k}).Keys, Remove(keys, k))
    ensures (counts - {k}).Keys == (data - {k}).Keys
  {
    TracksRemove(data.Keys, keys, k);
    assert (data - {k}).Keys == data.Keys - {k};
  }

  /** Adding a new key with count 1 at the tail of `order` keeps the three in step. */
  lemma InsertionKeepsTracking<K, V>(data: map<K, V>, counts: map<K, nat>, keys: seq<K>, k: K, v: V)
    requires Tracks(data.Keys, keys) && counts.Keys == data.Keys && k !in data
    ensures Tracks(data[k := v].Keys, keys + [k])
    ensures counts[k := 1].Keys == data[k := v].Keys
  {
    TracksAppend(data.Keys, keys, k);
    assert data[k := v].Keys == data.Keys + {k};
  }

  /**
   Giving a cached key a new value and count and moving it to the tail of
   `order` keeps the three in step.
   */
  lemma UseKeepsTracking<K, V>(data: map<K, V>, counts: map<K, nat>, keys: seq<K>, k: K, v: V, n: nat)
    requires Tracks(data.Keys, keys) && counts.Keys == data.Keys && k in data
    ensures k in keys
    ensures Tracks(data[k := v].Keys, Remove(keys, k) + [k])
    ensures counts[k := n].Keys == data[k := v].Keys
  {
    TracksMoveToEnd(data.Keys, keys, k);
    assert data[k := v].Keys == data.Keys;
  }

  /**
   `min(frequency.values())`, the smallest count.
   */
  method MinFrequency<K>(frequency: map<K, nat>) returns (lo: nat)
    requires frequency != map[]
    ensures lo in frequency.Values
    ensures forall k :: k in frequency ==> lo <= frequency[k]
  {
    var first :| first in frequency;
    lo := frequency[first];
    ghost var holder := first;
    var rest := frequency.Keys - {first};
    while rest != {}
      invariant rest <= frequency.Keys
      invariant holder in frequency && frequency[holder] == lo
      invariant forall k :: k in frequency && k !in rest ==> lo <= frequency[k]
      decreases rest
    {
      var k :| k in rest;
      if frequency[k] < lo {
        lo := frequency[k];
        holder := k;
      }
      rest := rest - {k};
    }
  }

  /**
   `min(candidates, key=order.index)`: the candidate that comes first in `order`.
   */
  method EarliestInOrder<K>(candidates: set<K>, order: seq<K>) returns (best: K)
    requires candidates != {}
    requires forall k :: k in candidates ==> k in order
    ensures best in candidates
    ensures forall k :: k in candidates ==> IndexOf(order, best) <= IndexOf(order, k)
  {
    best :| best in candidates;
    var rest := candidates - {best};
    while rest != {}
      invariant rest <= candidates && best in candidates
      invariant forall k :: k in candidates && k !in rest ==> IndexOf(order, best) <= IndexOf(order, k)
      decreases rest
    {
      var k :| k in rest;
      if IndexOf(order, k) < IndexOf(order, best) {
        best := k;
      }
      rest := rest - {k};
    }
  }

  class LFUCache<K(==), V> {
    /** The primary key/value map. */
    var cacheData: map<K, V>
    /** How many times each key has been put or read. */
    var frequency: map<K, nat>
    /** Keys from least to most recently put or read. */
    var order: seq<K>
    /** The count `DiscardLfu` looks for. */
    var minFreq: nat

    ghost predicate Valid()
      reads this
    {
      && Tracks(cacheData.Keys, order)
      && frequency.Keys == cacheData.Keys
      && Counts(frequency, minFreq)
    }

    constructor ()
      ensures Valid()
      ensures cacheData == map[] && frequency == map[] && order == [] && minFreq == 0
    {
      cacheData := map[];
      frequency := map[];
      order := [];
      minFreq := 0;
    }

    /**
     The victim `discard_lfu` chooses: among the keys whose count is `minFreq`,
     the one that comes first in `order`; `None` when no key has that count.
     */
    method LeastFrequentlyUsed() returns (victim: Option<K>)
      requires Valid()
      ensures victim == FirstWithFrequency(order, frequency, minFreq)
      ensures victim.None? <==> forall k :: k in frequency ==> frequency[k] != minFreq
      ensures victim.Some? ==>
        && victim.value in frequency && frequency[victim.value] == minFreq
        && forall k :: k in order && frequency[k] == minFreq ==> IndexOf(order, victim.value) <= IndexOf(order, k)
    {
      TrackedKeys(cacheData.Keys, order);
      var minFreqKeys := set k | k in frequency && frequency[k] == minFreq;
      if minFreqKeys != {} {
        var lruKey := EarliestInOrder(minFreqKeys, order);
        EarliestIsFirstWithFrequency(order, frequency, minFreq, lruKey);
        victim := Some(lruKey);
      } else {
        forall k | k in frequency
          ensures frequency[k] != minFreq
        {
          assert k !in minFreqKeys;
        }
        victim := None;
      }
    }

    /**
     Evicts the key `LeastFrequentlyUsed` chooses, if any, from all three
     structures; then sets `minFreq` to the smallest remaining count, or 0
     when nothing is left.
     */
    method DiscardLfu() returns (discarded: Option<K>)
      requires Valid()
      modifies this
      ensures Valid()
      ensures discarded == FirstWithFrequency(old(order), old(frequency), old(minFreq))
      ensures discarded.None? ==>
        cacheData == old(cacheData) && frequency == old(frequency) && order == old(order)
      ensures discarded.Some? ==>
        && discarded.value in old(order)
        && cacheData == old(cacheData) - {discarded.value}
        && frequency == old(frequency) - {discarded.value}
        && order == Remove(old(order), discarded.value)
      ensures frequency == map[] ==> minFreq == 0
      ensures frequency != map[] ==> minFreq in frequency.Values && forall k :: k in frequency ==> minFreq <= frequency[k]
      ensures forall k :: k in frequency ==> 2 <= frequency[k]
    {
      discarded := LeastFrequentlyUsed();
      VictimLeavesRepeatedKeys(order, frequency, minFreq);
      var data, counts, keys := cacheData, frequency, order;
      if discarded.Some? {
        var k := discarded.value;
        RemovalKeepsTracking(data, counts, keys, k);
        data, counts, keys := data - {k}, counts - {k}, Remove(keys, k);
      }
      var low := 0;
      if counts != map[] {
        low := MinFrequency(counts);
      }
      CountsAfterDiscard(counts, low);
      cacheData, frequency, order, minFreq := data, counts, keys, low;
    }

    /**
     Stores `item` under `key`. A `None` key or item is ignored. A new key first
     triggers `DiscardLfu`, whose victim is returned, and is then stored with
     count 1 at the tail of `order`, and `minFreq` becomes 1. An existing key
     gets its new value, its count goes up by one, it moves to the tail of
     `order`, and nothing is evicted.
     */
    method Put(key: Option<K>, item: Option<V>) returns (discarded: Option<K>)
      requires Valid()
      modifies this
      ensures Valid()
      ensures key.None? || item.None? ==>
        && cacheData == old(cacheData) && frequency == old(frequency)
        && order == old(order) && minFreq == old(minFreq) && discarded == None
      ensures key.Some? && item.Some? && key.value in old(cacheData) ==>
        && key.value in old(order)
        && cacheData == old(cacheData)[key.value := item.value]
        && frequency == old(frequency)[key.value := old(frequency)[key.value] + 1]
        && order == Remove(old(order), key.value) + [key.value]
        && minFreq == old(minFreq)
        && discarded == None
      ensures key.Some? && item.Some? && key.value !in old(cacheData) ==>
        && discarded == FirstWithFrequency(old(order), old(frequency), old(minFreq))
        && (discarded.Some? ==> discarded.value in old(order))
        && cacheData == (if discarded.Some? then old(cacheData) - {discarded.value} else old(cacheData))[key.value := item.value]
        && frequency == (if discarded.Some? then old(frequency) - {discarded.value} else old(frequency))[key.value := 1]
        && order == (if discarded.Some? then Remove(old(order), discarded.value) else old(order)) + [key.value]
        && minFreq == 1
      ensures old(minFreq) <= 1 ==> minFreq <= 1
      ensures discarded.Some? && old(minFreq) <= 1 ==> old(frequency)[discarded.value] == 1
    {
      discarded := None;
      if key.None? || item.None? {
        return;
      }
      var k := key.value;
      if k !in cacheData {
        discarded := DiscardLfu();
        var data, counts, keys := cacheData, frequency, order;
        InsertionKeepsTracking(data, counts, keys, k, item.value);
        CountsAfterInsert(counts, k);
        cacheData, frequency, order, minFreq := data[k := item.value], counts[k := 1], keys + [k], 1;
      } else {
        var data, counts, keys := cacheData, frequency, order;
        UseKeepsTracking(data, counts, keys, k, item.value, counts[k] + 1);
        CountsAfterUse(counts, minFreq, k);
        cacheData, frequency, order := data[k := item.value], counts[k := counts[k] + 1], Remove(keys, k) + [k];
      }
    }

    /**
     The value stored under `key`, or `None`. A key that is present has its
     count raised by one and moves to the tail of `order`; otherwise nothing
     changes. The map and `minFreq` are never changed.
     */
    method Get(key: Option<K>) returns (r: Option<V>)
      requires Valid()
      modifies this
      ensures Valid()
      ensures cacheData == old(cacheData) && minFreq == old(minFreq)
      ensures r.Some? <==> key.Some? && key.value in cacheData
      ensures r.Some? ==> r.value == cacheData[key.value]
      ensures r.Some? ==>
        && key.value in old(order)
        && frequency == old(frequency)[key.value := old(frequency)[key.value] + 1]
        && order == Remove(old(order), key.value) + [key.value]
      ensures r.None? ==> frequency == old(frequency) && order == old(order)
    {
      if key.None? || key.value !in cacheData {
        return None;
      }
      var k := key.value;
      TracksMoveToEnd(cacheData.Keys, order, k);
      CountsAfterUse(frequency, minFreq, k);
      frequency, order := frequency[k := frequency[k] + 1], Remove(order, k) + [k];
      r := Some(cacheData[k]);
    }
  }

  /**
   With room for four entries, the second key put into a fresh cache already
   evicts the first.
   */
  method LfuEvictsBelowCapacity() returns (first: Option<int>, second: Option<int>, size: nat)
    ensures first == None && second == Some(1) && size == 1 < MAX_ITEMS
  {
    var c := new LFUCache<int, int>();
    first := c.Put(Some(1), Some(10));
    assert c.order == [1] && c.frequency == map[1 := 1] && c.minFreq == 1;
    second := c.Put(Some(2), Some(20));
    size := |c.cacheData|;
  }

  /**
   From a full cache whose four keys have each been used twice, a new key finds
   no key with count 1, evicts nothing, and the cache holds five entries.
   */
  method LfuGrowsPastCapacity(c: LFUCache<int, int>) returns (discarded: Option<int>)
    requires c.Valid()
    requires c.order == [1, 2, 3, 4] && c.cacheData == map[1 := 10, 2 := 20, 3 := 30, 4 := 40]
    requires c.frequency == map[1 := 2, 2 := 2, 3 := 2, 4 := 2] && c.minFreq == 1
    modifies c
    ensures discarded == None && |c.cacheData| == MAX_ITEMS + 1
  {
    discarded := c.Put(Some(5), Some(50));
  }
}
