/** What the store evicts: its entries are ordered by when they were last used, and a key it no longer
    holds was last used before every key it holds. */
module LruRecency {
  import opened Options
  import opened LruStore
  import opened LruInclusion

  /** The key an operation uses: the one put, or the one hit. */
  function Used<K(==,!new), S(==,!new), V(!new)>(items: seq<Item<K, S, V>>, op: Op<K, S, V>): Option<K> {
    match op
    case GetOp(key, sources) => if GetResult(items, key, sources).Some? then Some(key) else None
    case PutOp(item) => Some(item.key)
    case ClearOp => None
  }

  /** The position in the trace at which a key was last used since the last clear, or -1. */
  function LastUse<K(==,!new), S(==,!new), V(!new)>(c: nat, ops: seq<Op<K, S, V>>, key: K): int {
    if ops == [] then -1
    else
      var before, op := ops[..|ops| - 1], ops[|ops| - 1];
      if op.ClearOp? then -1
      else if Used(Run(c, before), op) == Some(key) then |before|
      else LastUse(c, before, key)
  }

  lemma {:induction false} LastUseBelow<K(!new), S(!new), V(!new)>(c: nat, ops: seq<Op<K, S, V>>, key: K)
    ensures LastUse(c, ops, key) < |ops|
  {
    if ops != [] {
      LastUseBelow(c, ops[..|ops| - 1], key);
    }
  }

  ghost predicate Increasing<K(!new), S(!new), V(!new)>(items: seq<Item<K, S, V>>, clock: K -> int) {
    && (forall i, j :: 0 <= i < j < |items| ==> clock(items[i].key) < clock(items[j].key))
    && (forall i :: 0 <= i < |items| ==> clock(items[i].key) >= 0)
  }

  ghost predicate Older<K(!new), S(!new), V(!new)>(items: seq<Item<K, S, V>>, clock: K -> int, key: K) {
    forall i :: 0 <= i < |items| ==> clock(key) < clock(items[i].key)
  }

  /** Entries stand in increasing order of a clock, and every key the clock knows is either held or older
      than everything held, in which case the store is full. */
  ghost predicate LeastRecentFirst<K(!new), S(!new), V(!new)>(items: seq<Item<K, S, V>>, c: nat, clock: K -> int) {
    && Increasing(items, clock)
    && (forall key :: clock(key) >= 0 && !HasKey(items, key) ==> |items| == c && Older(items, clock, key))
  }

  lemma AfterFirst<K(!new), S(!new), V(!new)>(items: seq<Item<K, S, V>>, key: K, clock: K -> int, j: nat)
    requires items != [] && Increasing(items, clock) && j < |Without(items[1..], key)|
    ensures clock(items[0].key) < clock(Without(items[1..], key)[j].key)
  {
    hide Without;
    WithoutMembers(items[1..], key);
    var kept := Without(items[1..], key)[j];
    assert kept in Without(items[1..], key);
    var m :| 0 <= m < |items[1..]| && items[1..][m] == kept;
    assert items[m + 1] == kept;
  }

  lemma IncreasingCons<K(!new), S(!new), V(!new)>(item: Item<K, S, V>, rest: seq<Item<K, S, V>>, clock: K -> int)
    requires Increasing(rest, clock) && clock(item.key) >= 0
    requires forall j :: 0 <= j < |rest| ==> clock(item.key) < clock(rest[j].key)
    ensures Increasing([item] + rest, clock)
  {
  }

  lemma {:induction false} WithoutIncreasing<K(!new), S(!new), V(!new)>(items: seq<Item<K, S, V>>, key: K, clock: K -> int)
    requires Increasing(items, clock)
    ensures Increasing(Without(items, key), clock)
  {
    if items != [] {
      WithoutIncreasing(items[1..], key, clock);
      var rest := Without(items[1..], key);
      forall j | 0 <= j < |rest|
        ensures clock(items[0].key) < clock(rest[j].key)
      {
        AfterFirst(items, key, clock, j);
      }
      IncreasingCons(items[0], rest, clock);
      hide Increasing;
      assert [] + rest == rest;
    }
  }

  ghost predicate Ticks<K(!new)>(clock: K -> int, now: nat, clock': K -> int, used: K) {
    && clock'(used) == now
    && (forall key :: key != used ==> clock'(key) == clock(key))
    && (forall key :: clock(key) < now)
  }

  /** The entries that stay when a key is moved: the held ones under other keys. */
  lemma StaysHeld<K(!new), S(!new), V(!new)>(items: seq<Item<K, S, V>>, used: K)
    ensures forall i :: 0 <= i < |Without(items, used)| ==> Without(items, used)[i].key != used && HasKey(items, Without(items, used)[i].key)
    ensures forall key :: key != used && HasKey(items, key) ==> HasKey(Without(items, used), key)
  {
    var rest := Without(items, used);
    WithoutMembers(items, used);
    forall i | 0 <= i < |rest|
      ensures rest[i].key != used && HasKey(items, rest[i].key)
    {
      assert rest[i] in rest;
      var m :| 0 <= m < |items| && items[m] == rest[i];
      assert items[m].key == rest[i].key;
    }
    forall key | key != used && HasKey(items, key)
      ensures HasKey(rest, key)
    {
      LookupFinds(items, key);
      var held := Lookup(items, key).value;
      assert held in rest;
      var m :| 0 <= m < |rest| && rest[m] == held;
      assert rest[m].key == key;
    }
  }

  lemma MovedIncreasing<K(!new), S(!new), V(!new)>(items: seq<Item<K, S, V>>, item: Item<K, S, V>,
                                                   clock: K -> int, now: nat, clock': K -> int)
    requires Increasing(items, clock) && Ticks(clock, now, clock', item.key)
    ensures Increasing(Without(items, item.key) + [item], clock')
  {
    WithoutIncreasing(items, item.key, clock);
    StaysHeld(items, item.key);
  }

  lemma HasKeyAppend<K(!new), S(!new), V(!new)>(items: seq<Item<K, S, V>>, item: Item<K, S, V>, key: K)
    ensures HasKey(items + [item], key) <==> HasKey(items, key) || key == item.key
  {
    var longer := items + [item];
    assert longer[|items|] == item;
    if HasKey(items, key) {
      var i :| 0 <= i < |items| && items[i].key == key;
      assert longer[i].key == key;
    }
    if HasKey(longer, key) && key != item.key {
      var i :| 0 <= i < |longer| && longer[i].key == key;
      assert items[i].key == key;
    }
  }

  /** A known key that is not held after a move was not held before it, and is older than everything. */
  lemma MovedForgets<K(!new), S(!new), V(!new)>(items: seq<Item<K, S, V>>, c: nat, item: Item<K, S, V>,
                                                clock: K -> int, now: nat, clock': K -> int, key: K)
    requires LeastRecentFirst(items, c, clock) && Ticks(clock, now, clock', item.key)
    requires clock'(key) >= 0 && !HasKey(Without(items, item.key) + [item], key)
    ensures |items| == c && Older(Without(items, item.key) + [item], clock', key)
  {
    HasKeyAppend(Without(items, item.key), item, key);
    StaysHeld(items, item.key);
    var rest := Without(items, item.key);
    forall i | 0 <= i < |rest|
      ensures clock'(key) < clock'(rest[i].key)
    {
      var m :| 0 <= m < |items| && items[m].key == rest[i].key;
      assert clock(key) < clock(items[m].key);
    }
  }

  lemma TailHas<K(!new), S(!new), V(!new)>(items: seq<Item<K, S, V>>, key: K)
    requires items != [] && HasKey(items, key) && items[0].key != key
    ensures HasKey(items[1..], key)
  {
    var i :| 0 <= i < |items| && items[i].key == key;
    assert items[1..][i - 1].key == key;
  }

  /** What trimming takes away is the first entry. */
  lemma OldestGoes<K(!new), S(!new), V(!new)>(full: seq<Item<K, S, V>>, c: nat, key: K)
    requires |full| <= c + 1 && HasKey(full, key) && !HasKey(Trim(full, c), key)
    ensures |full| == c + 1 && full[0].key == key && Trim(full, c) == full[1..]
  {
    if full[0].key != key {
      TailHas(full, key);
    }
  }

  lemma TrimIncreasing<K(!new), S(!new), V(!new)>(full: seq<Item<K, S, V>>, c: nat, clock: K -> int)
    requires Increasing(full, clock)
    ensures Increasing(Trim(full, c), clock)
  {
  }

  lemma FirstIsOldest<K(!new), S(!new), V(!new)>(items: seq<Item<K, S, V>>, clock: K -> int)
    requires items != [] && Increasing(items, clock)
    ensures Older(items[1..], clock, items[0].key)
  {
  }

  lemma TrimOlder<K(!new), S(!new), V(!new)>(full: seq<Item<K, S, V>>, c: nat, clock: K -> int, key: K)
    requires Older(full, clock, key)
    ensures Older(Trim(full, c), clock, key)
  {
  }

  /** A known key that is not kept is older than all that is, and then the store is full. */
  lemma NotKeptIsOlder<K(!new), S(!new), V(!new)>(items: seq<Item<K, S, V>>, c: nat, item: Item<K, S, V>,
                                                  clock: K -> int, now: nat, clock': K -> int, key: K)
    requires DistinctKeys(items) && |items| <= c && LeastRecentFirst(items, c, clock) && Ticks(clock, now, clock', item.key)
    requires clock'(key) >= 0 && !HasKey(Trim(Without(items, item.key) + [item], c), key)
    ensures |Trim(Without(items, item.key) + [item], c)| == c
    ensures Older(Trim(Without(items, item.key) + [item], c), clock', key)
  {
    hide Without, Older, Increasing, Ticks, DistinctKeys, HasKey;
    var full := Without(items, item.key) + [item];
    WithoutLengthIs(items, item.key);
    MovedIncreasing(items, item, clock, now, clock');
    if HasKey(full, key) {
      OldestGoes(full, c, key);
      FirstIsOldest(full, clock');
    } else {
      MovedForgets(items, c, item, clock, now, clock', key);
      TrimOlder(full, c, clock', key);
    }
  }

  /** Using a key: it goes to the end, the clock now reads latest at it, and at most the oldest entry goes. */
  lemma UseMovesToEnd<K(!new), S(!new), V(!new)>(items: seq<Item<K, S, V>>, c: nat, item: Item<K, S, V>,
                                                 clock: K -> int, now: nat, clock': K -> int)
    requires DistinctKeys(items) && |items| <= c && LeastRecentFirst(items, c, clock) && Ticks(clock, now, clock', item.key)
    ensures LeastRecentFirst(Trim(Without(items, item.key) + [item], c), c, clock')
  {
    hide Without, Older, Increasing, Ticks, DistinctKeys, HasKey, Trim;
    var full := Without(items, item.key) + [item];
    MovedIncreasing(items, item, clock, now, clock');
    TrimIncreasing(full, c, clock');
    forall key | clock'(key) >= 0 && !HasKey(Trim(full, c), key)
      ensures |Trim(full, c)| == c && Older(Trim(full, c), clock', key)
    {
      NotKeptIsOlder(items, c, item, clock, now, clock', key);
    }
  }

  lemma ClockTicks<K(!new), S(!new), V(!new)>(c: nat, ops: seq<Op<K, S, V>>, used: K)
    requires ops != [] && Used(Run(c, ops[..|ops| - 1]), ops[|ops| - 1]) == Some(used)
    ensures Ticks(k => LastUse(c, ops[..|ops| - 1], k), |ops| - 1, k => LastUse(c, ops, k), used)
  {
    var before := ops[..|ops| - 1];
    forall key {:trigger LastUse(c, before, key)}
      ensures LastUse(c, before, key) < |before|
    {
      LastUseBelow(c, before, key);
    }
  }

  /** After any trace, the store holds the most recently used keys, oldest first. */
  lemma {:induction false} RunIsLeastRecentFirst<K(!new), S(!new), V(!new)>(c: nat, ops: seq<Op<K, S, V>>)
    ensures LeastRecentFirst(Run(c, ops), c, key => LastUse(c, ops, key))
  {
    if ops != [] {
      var before, op := ops[..|ops| - 1], ops[|ops| - 1];
      RunIsLeastRecentFirst(c, before);
      RunIncluded(c, c, before);
      var items := Run(c, before);
      var clock, clock' := k => LastUse(c, before, k), k => LastUse(c, ops, k);
      match op {
        case GetOp(key, sources) =>
          if Answers(Lookup(items, key), sources) {
            LookupFinds(items, key);
            WithoutLengthIs(items, key);
            ClockTicks(c, ops, key);
            UseMovesToEnd(items, c, Lookup(items, key).value, clock, |before|, clock');
          } else {
            assert forall k :: clock'(k) == clock(k);
            SameClock(items, c, clock, clock');
          }
        case PutOp(item) =>
          ClockTicks(c, ops, item.key);
          UseMovesToEnd(items, c, item, clock, |before|, clock');
        case ClearOp =>
      }
    }
  }

  lemma SameClock<K(!new), S(!new), V(!new)>(items: seq<Item<K, S, V>>, c: nat, clock: K -> int, clock': K -> int)
    requires LeastRecentFirst(items, c, clock) && forall k :: clock'(k) == clock(k)
    ensures LeastRecentFirst(items, c, clock')
  {
    forall key | clock'(key) >= 0 && !HasKey(items, key)
      ensures |items| == c && Older(items, clock', key)
    {
      assert Older(items, clock, key);
    }
  }
}
