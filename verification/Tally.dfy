/** Counting the items of a list by a key. */
module Tally {

  /** The number of items whose key is among `keys`. */
  function CountIn<T, K(==)>(items: seq<T>, key: T -> K, keys: set<K>): nat {
    if items == [] then 0
    else CountIn(items[..|items| - 1], key, keys) + if key(items[|items| - 1]) in keys then 1 else 0
  }

  lemma {:induction false} CountInUnion<T, K>(items: seq<T>, key: T -> K, k: K, keys: set<K>)
    requires k !in keys
    ensures CountIn(items, key, {k} + keys) == CountIn(items, key, {k}) + CountIn(items, key, keys)
  {
    if items != [] {
      CountInUnion(items[..|items| - 1], key, k, keys);
    }
  }

  lemma {:induction false} CountInNothing<T, K>(items: seq<T>, key: T -> K)
    ensures CountIn(items, key, {}) == 0
  {
    if items != [] {
      CountInNothing(items[..|items| - 1], key);
    }
  }

  lemma {:induction false} CountInAll<T, K>(items: seq<T>, key: T -> K, keys: set<K>)
    requires forall x <- items :: key(x) in keys
    ensures CountIn(items, key, keys) == |items|
  {
    if items != [] {
      var n := |items| - 1;
      assert items[n] in items;
      CountInAll(items[..n], key, keys);
    }
  }
}
