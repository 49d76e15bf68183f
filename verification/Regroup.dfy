/** Items collected under their keys, each bucket in the order of the items. */
module Regroup {
  import opened Seqs

  ghost function Under<K, T>(keys: seq<K>, items: seq<T>, key: K): seq<T>
    requires |keys| == |items|
  {
    if items == [] then []
    else
      var n := |items| - 1;
      Under(keys[..n], items[..n], key) + if keys[n] == key then [items[n]] else []
  }

  ghost predicate Regrouped<K(!new), T>(m: map<K, seq<T>>, keys: seq<K>, items: seq<T>) {
    && |keys| == |items|
    && (forall key :: key in m <==> key in keys)
    && (forall key :: key in m ==> m[key] == Under(keys, items, key))
  }

  lemma {:induction false} UnderNone<K, T>(keys: seq<K>, items: seq<T>, key: K)
    requires |keys| == |items| && key !in keys
    ensures Under(keys, items, key) == []
  {
    if items != [] {
      UnderNone(keys[..|items| - 1], items[..|items| - 1], key);
    }
  }

  /** One more item goes to the end of its bucket, which is made for it if it is the first. */
  lemma RegroupedMore<K(!new), T>(m: map<K, seq<T>>, keys: seq<K>, items: seq<T>, key: K, item: T)
    requires Regrouped(m, keys, items)
    ensures key in m ==> Regrouped(m[key := m[key] + [item]], keys + [key], items + [item])
    ensures key !in m ==> Regrouped(m[key := [item]], keys + [key], items + [item])
  {
    assert (keys + [key])[..|items|] == keys && (items + [item])[..|items|] == items;
    if key !in m {
      UnderNone(keys, items, key);
    }
    var longer := m[key := if key in m then m[key] + [item] else [item]];
    forall k | k in longer
      ensures longer[k] == Under(keys + [key], items + [item], k)
    {
      assert Under(keys + [key], items + [item], k) == Under(keys, items, k) + if key == k then [item] else [];
    }
  }

  /** The bucket has every item with its key, in order: the n-th of them is the n-th in the bucket. */
  lemma {:induction false} UnderAt<K, T>(keys: seq<K>, items: seq<T>, i: nat)
    requires |keys| == |items| && i < |items|
    ensures |Under(keys, items, keys[i])| == multiset(keys)[keys[i]]
    ensures multiset(keys[..i])[keys[i]] < multiset(keys)[keys[i]]
    ensures Under(keys, items, keys[i])[multiset(keys[..i])[keys[i]]] == items[i]
  {
    var n := |items| - 1;
    UnderSize(keys[..n], items[..n], keys[i]);
    CountLast(keys, keys[i]);
    if i < n {
      UnderAt(keys[..n], items[..n], i);
      assert keys[..n][..i] == keys[..i];
    }
  }

  lemma {:induction false} UnderSize<K, T>(keys: seq<K>, items: seq<T>, key: K)
    requires |keys| == |items|
    ensures |Under(keys, items, key)| == multiset(keys)[key]
  {
    if items != [] {
      UnderSize(keys[..|items| - 1], items[..|items| - 1], key);
      CountLast(keys, key);
    }
  }

  /** What is at `i` lands in the bucket of its key, once for each time it occurs there. */
  lemma {:induction false} UnderCounts<K, T>(keys: seq<K>, items: seq<T>, keyOf: T -> K, key: K, x: T)
    requires |keys| == |items| && forall i :: 0 <= i < |items| ==> keys[i] == keyOf(items[i])
    ensures multiset(Under(keys, items, key))[x] == if keyOf(x) == key then multiset(items)[x] else 0
  {
    if items != [] {
      var n := |items| - 1;
      UnderCounts(keys[..n], items[..n], keyOf, key, x);
      CountLast(items, x);
      CountMore(Under(keys[..n], items[..n], key), if keys[n] == key then [items[n]] else [], x);
    }
  }

  lemma {:induction false} UnderMembers<K, T>(keys: seq<K>, items: seq<T>, key: K, x: T)
    requires |keys| == |items| && x in Under(keys, items, key)
    ensures x in items
  {
    var n := |items| - 1;
    if x in Under(keys[..n], items[..n], key) {
      UnderMembers(keys[..n], items[..n], key, x);
    }
  }

  /** A bucket keeps the order of the items. */
  lemma {:induction false} UnderInOrder<K, T>(keys: seq<K>, items: seq<T>, key: K, rank: T -> int)
    requires |keys| == |items| && Ascending(items, rank)
    ensures Ascending(Under(keys, items, key), rank)
  {
    if items != [] {
      var n := |items| - 1;
      var bucket := Under(keys[..n], items[..n], key);
      UnderInOrder(keys[..n], items[..n], key, rank);
      forall i | 0 <= i < |bucket|
        ensures rank(bucket[i]) <= rank(items[n])
      {
        UnderMembers(keys[..n], items[..n], key, bucket[i]);
        var k :| 0 <= k < n && items[k] == bucket[i];
      }
    }
  }
}
