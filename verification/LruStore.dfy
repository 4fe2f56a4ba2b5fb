/** A bounded, least-recently-used artifact store.

    It is an ordered dictionary, oldest entry first, whose entries answer only for the sources they were retained
    against. */
module LruStore {
  import opened Options

  datatype Item<K, S, V> = Item(key: K, sources: S, artifact: V)

  // ----- Ordered dictionaries -----

  predicate HasKey<K(==,!new), S(!new), V(!new)>(items: seq<Item<K, S, V>>, key: K) {
    exists i :: 0 <= i < |items| && items[i].key == key
  }

  predicate DistinctKeys<K(==,!new), S(!new), V(!new)>(items: seq<Item<K, S, V>>) {
    forall i, j :: 0 <= i < j < |items| ==> items[i].key != items[j].key
  }

  function Keys<K(!new), S(!new), V(!new)>(items: seq<Item<K, S, V>>): set<K> {
    set i | 0 <= i < |items| :: items[i].key
  }

  function Lookup<K(==,!new), S(!new), V(!new)>(items: seq<Item<K, S, V>>, key: K): Option<Item<K, S, V>> {
    if items == [] then None
    else if items[0].key == key then Some(items[0])
    else Lookup(items[1..], key)
  }

  function Without<K(==,!new), S(!new), V(!new)>(items: seq<Item<K, S, V>>, key: K): seq<Item<K, S, V>> {
    if items == [] then []
    else if items[0].key == key then Without(items[1..], key)
    else [items[0]] + Without(items[1..], key)
  }

  /** Drop the oldest entries beyond a capacity. */
  function Trim<K(!new), S(!new), V(!new)>(items: seq<Item<K, S, V>>, capacity: nat): seq<Item<K, S, V>> {
    if |items| > capacity then items[|items| - capacity..] else items
  }

  // ----- The store's operations on its contents -----

  /** An entry answers if it was retained against these very sources. */
  predicate Answers<K, S(==), V>(found: Option<Item<K, S, V>>, sources: S) {
    found.Some? && found.value.sources == sources
  }

  function GetResult<K(==,!new), S(==,!new), V(!new)>(items: seq<Item<K, S, V>>, key: K, sources: S): Option<V> {
    var found := Lookup(items, key);
    if Answers(found, sources) then Some(found.value.artifact) else None
  }

  /** A hit becomes the most recent entry; a miss changes nothing. */
  function AfterGet<K(==,!new), S(==,!new), V(!new)>(items: seq<Item<K, S, V>>, key: K, sources: S): seq<Item<K, S, V>> {
    var found := Lookup(items, key);
    if Answers(found, sources) then Without(items, key) + [found.value] else items
  }

  function AfterPut<K(==,!new), S(!new), V(!new)>(items: seq<Item<K, S, V>>, capacity: nat, item: Item<K, S, V>): seq<Item<K, S, V>> {
    Trim(Without(items, item.key) + [item], capacity)
  }

  // ----- Basic facts -----

  lemma {:induction false} LookupFinds<K(!new), S(!new), V(!new)>(items: seq<Item<K, S, V>>, key: K)
    ensures Lookup(items, key).Some? <==> HasKey(items, key)
    ensures Lookup(items, key).Some? ==> Lookup(items, key).value in items && Lookup(items, key).value.key == key
  {
    if items != [] {
      HasKeyTail(items, key);
      LookupFinds(items[1..], key);
    }
  }

  /** With distinct keys, looking a key up finds its one entry. */
  lemma LookupIs<K(!new), S(!new), V(!new)>(items: seq<Item<K, S, V>>, item: Item<K, S, V>)
    requires DistinctKeys(items) && item in items
    ensures Lookup(items, item.key) == Some(item)
  {
    LookupFinds(items, item.key);
    var i :| 0 <= i < |items| && items[i] == item;
    assert items[i].key == item.key;
    var found := Lookup(items, item.key).value;
    var j :| 0 <= j < |items| && items[j] == found;
    assert i == j;
  }

  lemma {:induction false} WithoutMembers<K(!new), S(!new), V(!new)>(items: seq<Item<K, S, V>>, key: K)
    ensures forall item :: item in Without(items, key) <==> item in items && item.key != key
  {
    if items != [] {
      WithoutMembers(items[1..], key);
      assert items == [items[0]] + items[1..];
    }
  }

  lemma HasKeyTail<K(!new), S(!new), V(!new)>(items: seq<Item<K, S, V>>, key: K)
    requires items != []
    ensures HasKey(items, key) <==> items[0].key == key || HasKey(items[1..], key)
  {
    if HasKey(items[1..], key) {
      var i :| 0 <= i < |items[1..]| && items[1..][i].key == key;
      assert items[i + 1].key == key;
    }
    if HasKey(items, key) && items[0].key != key {
      var i :| 0 <= i < |items| && items[i].key == key;
      assert items[1..][i - 1].key == key;
    }
  }

  lemma {:induction false} WithoutDistinct<K(!new), S(!new), V(!new)>(items: seq<Item<K, S, V>>, key: K)
    requires DistinctKeys(items)
    ensures DistinctKeys(Without(items, key))
  {
    if items != [] {
      WithoutDistinct(items[1..], key);
      WithoutMembers(items[1..], key);
      var rest := Without(items[1..], key);
      forall j | 0 <= j < |rest|
        ensures rest[j].key != items[0].key
      {
        assert rest[j] in rest;
        var m :| 0 <= m < |items[1..]| && items[1..][m] == rest[j];
        assert items[m + 1] == rest[j];
      }
    }
  }

  lemma {:induction false} WithoutAbsent<K(!new), S(!new), V(!new)>(items: seq<Item<K, S, V>>, key: K)
    ensures !HasKey(Without(items, key), key)
    ensures |Without(items, key)| <= |items|
    ensures !HasKey(items, key) ==> Without(items, key) == items
  {
    if items != [] {
      HasKeyTail(items, key);
      WithoutAbsent(items[1..], key);
    }
  }

  lemma WithoutKeeps<K(!new), S(!new), V(!new)>(items: seq<Item<K, S, V>>, key: K)
    ensures !HasKey(Without(items, key), key)
    ensures forall item :: item in Without(items, key) <==> item in items && item.key != key
    ensures DistinctKeys(items) ==> DistinctKeys(Without(items, key))
    ensures |Without(items, key)| <= |items|
    ensures !HasKey(items, key) ==> Without(items, key) == items
  {
    WithoutMembers(items, key);
    WithoutAbsent(items, key);
    if DistinctKeys(items) {
      WithoutDistinct(items, key);
    }
  }

  lemma AppendDistinct<K(!new), S(!new), V(!new)>(items: seq<Item<K, S, V>>, item: Item<K, S, V>)
    requires DistinctKeys(items) && !HasKey(items, item.key)
    ensures DistinctKeys(items + [item])
  {
  }

  // ----- The store -----

  class ArtifactStore<K(==,!new), S(==,!new), V(!new)> {
    const capacity: nat
    var items: seq<Item<K, S, V>>

    ghost predicate Valid()
      reads this
    {
      DistinctKeys(items) && |items| <= capacity
    }

    constructor (capacity: nat)
      ensures Valid() && this.capacity == capacity && items == []
    {
      this.capacity, items := capacity, [];
    }

    method Get(key: K, sources: S) returns (r: Option<V>)
      requires Valid()
      modifies this
      ensures Valid()
      ensures r == GetResult(old(items), key, sources) && items == AfterGet(old(items), key, sources)
    {
      var found := Lookup(items, key);
      if found.None? || found.value.sources != sources {
        return None;
      }
      GetKeepsValid(items, capacity, key, sources);
      items := Without(items, key) + [found.value];
      return Some(found.value.artifact);
    }

    method Put(key: K, sources: S, artifact: V)
      requires Valid()
      modifies this
      ensures Valid()
      ensures items == AfterPut(old(items), capacity, Item(key, sources, artifact))
    {
      var item := Item(key, sources, artifact);
      WithoutKeeps(items, key);
      AppendDistinct(Without(items, key), item);
      items := Without(items, key) + [item];
      ghost var full := items;
      while |items| > capacity
        invariant |items| <= |full| && items == full[|full| - |items|..] && DistinctKeys(items)
        invariant |items| == |full| || |items| >= capacity
      {
        items := items[1..];
      }
    }

    method Clear()
      modifies this
      ensures Valid() && items == []
    {
      items := [];
    }
  }

  lemma GetKeepsValid<K(!new), S(!new), V(!new)>(items: seq<Item<K, S, V>>, capacity: nat, key: K, sources: S)
    requires DistinctKeys(items) && |items| <= capacity
    ensures DistinctKeys(AfterGet(items, key, sources)) && |AfterGet(items, key, sources)| <= capacity
  {
    LookupFinds(items, key);
    WithoutKeeps(items, key);
    if Lookup(items, key).Some? {
      AppendDistinct(Without(items, key), Lookup(items, key).value);
      WithoutLength(items, key);
    }
  }

  lemma {:induction false} WithoutLength<K(!new), S(!new), V(!new)>(items: seq<Item<K, S, V>>, key: K)
    requires HasKey(items, key)
    ensures |Without(items, key)| < |items|
  {
    WithoutKeeps(items[1..], key);
    if items[0].key != key {
      var i :| 0 <= i < |items| && items[i].key == key;
      assert items[1..][i - 1].key == key;
      WithoutLength(items[1..], key);
    }
  }
}
