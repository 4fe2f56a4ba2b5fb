/** What a store's capacity cannot change: a larger store never misses where a smaller one hits. */
module LruInclusion {
  import opened Options
  import opened LruStore

  // It holds everything the smaller one does, in the same order of recency; and a hit never differs from what an
  // unbounded store would answer.

  datatype Op<K, S, V> = GetOp(key: K, sources: S) | PutOp(item: Item<K, S, V>) | ClearOp

  function Apply<K(==,!new), S(==,!new), V(!new)>(items: seq<Item<K, S, V>>, capacity: nat, op: Op<K, S, V>): seq<Item<K, S, V>> {
    match op
    case GetOp(key, sources) => AfterGet(items, key, sources)
    case PutOp(item) => AfterPut(items, capacity, item)
    case ClearOp => []
  }

  function Answer<K(==,!new), S(==,!new), V(!new)>(items: seq<Item<K, S, V>>, op: Op<K, S, V>): Option<V> {
    if op.GetOp? then GetResult(items, op.key, op.sources) else None
  }

  /** The contents after a trace of operations on an empty store. */
  function Run<K(==,!new), S(==,!new), V(!new)>(capacity: nat, ops: seq<Op<K, S, V>>): seq<Item<K, S, V>> {
    if ops == [] then [] else Apply(Run(capacity, ops[..|ops| - 1]), capacity, ops[|ops| - 1])
  }

  // ----- Restriction to a set of keys -----

  ghost function Restrict<K(!new), S(!new), V(!new)>(items: seq<Item<K, S, V>>, keys: set<K>): seq<Item<K, S, V>> {
    if items == [] then []
    else if items[0].key in keys then [items[0]] + Restrict(items[1..], keys)
    else Restrict(items[1..], keys)
  }

  lemma {:induction false} RestrictAppend<K(!new), S(!new), V(!new)>(a: seq<Item<K, S, V>>, b: seq<Item<K, S, V>>, keys: set<K>)
    ensures Restrict(a + b, keys) == Restrict(a, keys) + Restrict(b, keys)
  {
    if a == [] {
      assert a + b == b;
    } else {
      assert (a + b)[1..] == a[1..] + b;
      RestrictAppend(a[1..], b, keys);
    }
  }

  lemma {:induction false} RestrictWithout<K(!new), S(!new), V(!new)>(items: seq<Item<K, S, V>>, key: K, keys: set<K>)
    ensures Restrict(Without(items, key), keys) == Without(Restrict(items, keys), key)
    ensures Restrict(Without(items, key), keys) == Restrict(items, keys - {key})
  {
    if items != [] {
      RestrictWithout(items[1..], key, keys);
    }
  }

  /** Only the keys present matter. */
  lemma {:induction false} RestrictSame<K(!new), S(!new), V(!new)>(items: seq<Item<K, S, V>>, keys: set<K>, keys': set<K>)
    requires forall i :: 0 <= i < |items| ==> (items[i].key in keys <==> items[i].key in keys')
    ensures Restrict(items, keys) == Restrict(items, keys')
  {
    if items != [] {
      RestrictSame(items[1..], keys, keys');
    }
  }

  lemma {:induction false} RestrictMembers<K(!new), S(!new), V(!new)>(items: seq<Item<K, S, V>>, keys: set<K>)
    ensures forall item :: item in Restrict(items, keys) ==> item in items && item.key in keys
  {
    if items != [] {
      RestrictMembers(items[1..], keys);
    }
  }

  // ----- Inclusion -----

  /** The smaller store is the larger one restricted to its own keys, and differs from it only when full. */
  ghost predicate Included<K(!new), S(!new), V(!new)>(small: seq<Item<K, S, V>>, c: nat, large: seq<Item<K, S, V>>, c': nat) {
    && c <= c' && DistinctKeys(small) && DistinctKeys(large) && |small| <= c && |large| <= c'
    && small == Restrict(large, Keys(small))
    && (|small| == c || small == large)
  }

  lemma IncludedLookup<K(!new), S(!new), V(!new)>(small: seq<Item<K, S, V>>, c: nat, large: seq<Item<K, S, V>>, c': nat, key: K)
    requires Included(small, c, large, c')
    ensures HasKey(small, key) ==> Lookup(large, key) == Lookup(small, key)
  {
    if HasKey(small, key) {
      LookupFinds(small, key);
      RestrictMembers(large, Keys(small));
      LookupIs(large, Lookup(small, key).value);
    }
  }

  /** Removing a key from both keeps the restriction, on the remaining keys. */
  lemma WithoutKey<K(!new), S(!new), V(!new)>(small: seq<Item<K, S, V>>, large: seq<Item<K, S, V>>, key: K)
    requires small == Restrict(large, Keys(small))
    ensures Without(small, key) == Restrict(Without(large, key), Keys(small) - {key})
    ensures Keys(Without(small, key)) == Keys(small) - {key}
  {
    RestrictWithout(large, key, Keys(small));
    RestrictWithout(large, key, Keys(small) - {key});
    assert Keys(small) - {key} - {key} == Keys(small) - {key};
    WithoutKeeps(small, key);
    forall k | k in Keys(small) - {key}
      ensures k in Keys(Without(small, key))
    {
      var i :| 0 <= i < |small| && small[i].key == k;
      assert small[i] in Without(small, key);
    }
    forall k | k in Keys(Without(small, key))
      ensures k in Keys(small) - {key}
    {
      var i :| 0 <= i < |Without(small, key)| && Without(small, key)[i].key == k;
      assert Without(small, key)[i] in small;
    }
  }

  /** Making an item the most recent of both keeps the restriction. */
  lemma MoveToEnd<K(!new), S(!new), V(!new)>(small: seq<Item<K, S, V>>, large: seq<Item<K, S, V>>, item: Item<K, S, V>)
    requires small == Restrict(large, Keys(small))
    ensures var s, l := Without(small, item.key) + [item], Without(large, item.key) + [item];
            s == Restrict(l, Keys(s)) && Keys(s) == Keys(small) + {item.key}
  {
    var s, l := Without(small, item.key) + [item], Without(large, item.key) + [item];
    WithoutKey(small, large, item.key);
    WithoutKeeps(large, item.key);
    KeysAppend(Without(small, item.key), item);
    assert Keys(s) == Keys(small) + {item.key};
    RestrictAppend(Without(large, item.key), [item], Keys(s));
    assert Restrict([item][1..], Keys(s)) == [];
    forall i | 0 <= i < |Without(large, item.key)|
      ensures Without(large, item.key)[i].key != item.key
    {
      assert Without(large, item.key)[i] in Without(large, item.key);
    }
    RestrictSame(Without(large, item.key), Keys(s), Keys(small) - {item.key});
  }

  lemma KeysAppend<K(!new), S(!new), V(!new)>(items: seq<Item<K, S, V>>, item: Item<K, S, V>)
    ensures Keys(items + [item]) == Keys(items) + {item.key}
  {
    var longer := items + [item];
    assert longer[|items|] == item;
    assert forall i :: 0 <= i < |items| ==> longer[i] == items[i];
  }

  /** Evicting the oldest entry of both, or of the smaller store alone, keeps the restriction. */
  lemma EvictOldest<K(!new), S(!new), V(!new)>(s: seq<Item<K, S, V>>, l: seq<Item<K, S, V>>)
    requires s != [] && DistinctKeys(s) && DistinctKeys(l) && s == Restrict(l, Keys(s))
    ensures l != []
    ensures s[1..] == Restrict(l, Keys(s[1..])) == Restrict(l[1..], Keys(s[1..]))
  {
    var first := s[0].key;
    assert Keys(s[1..]) == Keys(s) - {first} by {
      assert s == [s[0]] + s[1..];
      forall k | k in Keys(s) - {first}
        ensures k in Keys(s[1..])
      {
        var i :| 0 <= i < |s| && s[i].key == k;
        assert s[1..][i - 1].key == k;
      }
    }
    RestrictWithout(l, first, Keys(s));
    WithoutFirst(s);
    assert s[1..] == Restrict(l, Keys(s[1..]));
    if l[0].key in Keys(s) {
      assert s[0] == l[0];
    }
    assert l[0].key !in Keys(s[1..]);
  }

  lemma WithoutFirst<K(!new), S(!new), V(!new)>(s: seq<Item<K, S, V>>)
    requires s != [] && DistinctKeys(s)
    ensures Without(s, s[0].key) == s[1..]
  {
    assert !HasKey(s[1..], s[0].key);
    WithoutKeeps(s[1..], s[0].key);
  }

  lemma WithoutLengthIs<K(!new), S(!new), V(!new)>(items: seq<Item<K, S, V>>, key: K)
    requires DistinctKeys(items)
    ensures |Without(items, key)| == if HasKey(items, key) then |items| - 1 else |items|
  {
    if items == [] {
    } else if items[0].key == key {
      WithoutFirst(items);
    } else {
      assert DistinctKeys(items[1..]);
      WithoutLengthIs(items[1..], key);
      if HasKey(items, key) {
        var i :| 0 <= i < |items| && items[i].key == key;
        assert items[1..][i - 1].key == key;
      }
      if HasKey(items[1..], key) {
        var i :| 0 <= i < |items[1..]| && items[1..][i].key == key;
        assert items[i + 1].key == key;
      }
    }
  }

  lemma PutIncluded<K(!new), S(!new), V(!new)>(small: seq<Item<K, S, V>>, c: nat, large: seq<Item<K, S, V>>, c': nat,
                                               item: Item<K, S, V>)
    requires Included(small, c, large, c')
    ensures Included(AfterPut(small, c, item), c, AfterPut(large, c', item), c')
  {
    hide Without, Restrict, Lookup;
    var s, l := Without(small, item.key) + [item], Without(large, item.key) + [item];
    WithoutKeeps(small, item.key);
    WithoutKeeps(large, item.key);
    AppendDistinct(Without(small, item.key), item);
    AppendDistinct(Without(large, item.key), item);
    WithoutLengthIs(small, item.key);
    WithoutLengthIs(large, item.key);
    MoveToEnd(small, large, item);
    IncludedLookup(small, c, large, c', item.key);
    LookupFinds(large, item.key);
    LookupFinds(small, item.key);
    if |s| > c {
      EvictOldest(s, l);
    }
  }

  lemma GetIncluded<K(!new), S(!new), V(!new)>(small: seq<Item<K, S, V>>, c: nat, large: seq<Item<K, S, V>>, c': nat, key: K,
                                               sources: S)
    requires Included(small, c, large, c')
    ensures Included(AfterGet(small, key, sources), c, AfterGet(large, key, sources), c')
    ensures GetResult(small, key, sources).Some? ==> GetResult(large, key, sources) == GetResult(small, key, sources)
  {
    IncludedLookup(small, c, large, c', key);
    LookupFinds(large, key);
    LookupFinds(small, key);
    GetKeepsValid(small, c, key, sources);
    GetKeepsValid(large, c', key, sources);
    WithoutLengthIs(small, key);
    var found := Lookup(large, key);
    if Answers(found, sources) {
      MoveToEnd(small, large, found.value);
      if !HasKey(small, key) {
        var l := Without(large, key) + [found.value];
        WithoutKeeps(small, key);
        WithoutKey(small, large, key);
        RestrictAppend(Without(large, key), [found.value], Keys(small));
        assert key !in Keys(small);
        assert Keys(small) - {key} == Keys(small);
        assert Restrict([found.value][1..], Keys(small)) == [];
      }
    }
  }

  /** After any trace, the larger store includes the smaller one. */
  lemma {:induction false} RunIncluded<K(!new), S(!new), V(!new)>(c: nat, c': nat, ops: seq<Op<K, S, V>>)
    requires c <= c'
    ensures Included(Run(c, ops), c, Run(c', ops), c')
  {
    if ops != [] {
      var before := ops[..|ops| - 1];
      RunIncluded(c, c', before);
      match ops[|ops| - 1] {
        case GetOp(key, sources) => GetIncluded(Run(c, before), c, Run(c', before), c', key, sources);
        case PutOp(item) => PutIncluded(Run(c, before), c, Run(c', before), c', item);
        case ClearOp =>
      }
    }
  }

  /** Raising the capacity never turns a hit into a miss, nor changes what it returns. */
  lemma LargerStoreKeepsHits<K(!new), S(!new), V(!new)>(c: nat, c': nat, ops: seq<Op<K, S, V>>, key: K, sources: S)
    requires c <= c' && GetResult(Run(c, ops), key, sources).Some?
    ensures GetResult(Run(c', ops), key, sources) == GetResult(Run(c, ops), key, sources)
  {
    RunIncluded(c, c', ops);
    GetIncluded(Run(c, ops), c, Run(c', ops), c', key, sources);
  }

  // ----- Agreement with an unbounded map -----

  /** The item last put under each key since the last clear. */
  function LastPut<K(==,!new), S(!new), V(!new)>(ops: seq<Op<K, S, V>>): map<K, Item<K, S, V>> {
    if ops == [] then map[]
    else
      match ops[|ops| - 1]
      case GetOp(_, _) => LastPut(ops[..|ops| - 1])
      case PutOp(item) => LastPut(ops[..|ops| - 1])[item.key := item]
      case ClearOp => map[]
  }

  ghost predicate HoldsLastPuts<K(!new), S(!new), V(!new)>(items: seq<Item<K, S, V>>, last: map<K, Item<K, S, V>>) {
    forall item :: item in items ==> item.key in last && last[item.key] == item
  }

  lemma GetHoldsLastPuts<K(!new), S(!new), V(!new)>(items: seq<Item<K, S, V>>, last: map<K, Item<K, S, V>>, key: K, sources: S)
    requires HoldsLastPuts(items, last)
    ensures HoldsLastPuts(AfterGet(items, key, sources), last)
  {
    WithoutMembers(items, key);
    LookupFinds(items, key);
    forall x | x in AfterGet(items, key, sources)
      ensures x.key in last && last[x.key] == x
    {
      if Answers(Lookup(items, key), sources) {
        InAppend(Without(items, key), Lookup(items, key).value, x);
      }
    }
  }

  lemma InAppend<T>(s: seq<T>, y: T, x: T)
    ensures x in s + [y] <==> x in s || x == y
  {
  }

  lemma PutHoldsLastPuts<K(!new), S(!new), V(!new)>(items: seq<Item<K, S, V>>, last: map<K, Item<K, S, V>>, c: nat,
                                                    item: Item<K, S, V>)
    requires HoldsLastPuts(items, last)
    ensures HoldsLastPuts(AfterPut(items, c, item), last[item.key := item])
  {
    WithoutMembers(items, item.key);
    var full := Without(items, item.key) + [item];
    forall x | x in Trim(full, c)
      ensures x.key in last[item.key := item] && last[item.key := item][x.key] == x
    {
      assert x in full;
      InAppend(Without(items, item.key), item, x);
    }
  }

  /** Whatever the capacity, every entry held is the last one put under its key. */
  lemma {:induction false} RunHoldsLastPuts<K(!new), S(!new), V(!new)>(c: nat, ops: seq<Op<K, S, V>>)
    ensures HoldsLastPuts(Run(c, ops), LastPut(ops))
  {
    if ops != [] {
      var before := ops[..|ops| - 1];
      RunHoldsLastPuts(c, before);
      var items := Run(c, before);
      match ops[|ops| - 1] {
        case GetOp(key, sources) =>
          GetHoldsLastPuts(items, LastPut(before), key, sources);
        case PutOp(item) =>
          PutHoldsLastPuts(items, LastPut(before), c, item);
        case ClearOp =>
      }
    }
  }

  /** A hit answers with the artifact last put under its key, against the very sources asked about; and the
      size never exceeds the capacity. */
  lemma HitIsLastPut<K(!new), S(!new), V(!new)>(c: nat, ops: seq<Op<K, S, V>>, key: K, sources: S)
    ensures |Run(c, ops)| <= c
    ensures GetResult(Run(c, ops), key, sources).Some? ==>
              && key in LastPut(ops) && LastPut(ops)[key].sources == sources
              && GetResult(Run(c, ops), key, sources) == Some(LastPut(ops)[key].artifact)
  {
    RunIncluded(c, c, ops);
    RunHoldsLastPuts(c, ops);
    LookupFinds(Run(c, ops), key);
  }
}
