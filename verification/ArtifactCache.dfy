/** Retaining and serving module artifacts over memory and disk.

    Whatever is served is what recomputing it from the current sources would give, and retaining then serving
    the same modules returns all of them as long as they fit the store. Disk is grouped by dependency closure;
    memory is validated by the identity of the loaded modules. */
module ArtifactCache {
  import opened Options
  import opened LruStore
  import opened LruInclusion

  /** A loaded module object. Two objects are the same object only if they agree on their serial number too. */
  datatype Loaded = Loaded(moduleId: nat, serial: nat, content: string)

  type Sources = seq<Loaded>

  datatype Key = Key(moduleId: nat, discriminator: string)

  type Entry<A> = Item<Key, Sources, A>

  type Entries<A> = seq<Entry<A>>

  /** What a disk slot is located by: with collision-free digests, its discriminator and source contents. */
  datatype DiskKey = DiskKey(discriminator: string, contents: seq<Fingerprint>)

  /** What a module's digest covers: its identity in the program and its source, not which object it is. */
  datatype Fingerprint = Fingerprint(moduleId: nat, content: string)

  /** A retainable module and everything its artifacts could read. */
  datatype Closure = Closure(moduleId: nat, sources: Sources)

  function Contents(sources: Sources): (contents: seq<Fingerprint>)
    ensures |contents| == |sources|
  {
    seq(|sources|, i requires 0 <= i < |sources| => Fingerprint(sources[i].moduleId, sources[i].content))
  }

  function Ids(sources: Sources): (ids: seq<nat>)
    ensures |ids| == |sources|
  {
    seq(|sources|, i requires 0 <= i < |sources| => sources[i].moduleId)
  }

  predicate OneObjectPerId(s: Sources, t: Sources) {
    forall a, b :: 0 <= a < |s| && 0 <= b < |t| && s[a].moduleId == t[b].moduleId ==> s[a] == t[b]
  }

  /** The closures of one graph: each module once, and one loaded object per module id. */
  predicate OneGraph(retainable: seq<Closure>) {
    && (forall i, j :: 0 <= i < j < |retainable| ==> retainable[i].moduleId != retainable[j].moduleId)
    && (forall i, j :: 0 <= i < |retainable| && 0 <= j < |retainable| ==> OneObjectPerId(retainable[i].sources, retainable[j].sources))
  }

  /** Closures that list the same module ids list the same modules. */
  lemma SameIdsSameSources(retainable: seq<Closure>, i: nat, j: nat)
    requires OneGraph(retainable) && i < |retainable| && j < |retainable|
    requires Ids(retainable[i].sources) == Ids(retainable[j].sources)
    ensures retainable[i].sources == retainable[j].sources
  {
    forall a | 0 <= a < |retainable[i].sources|
      ensures retainable[i].sources[a] == retainable[j].sources[a]
    {
      assert Ids(retainable[i].sources)[a] == Ids(retainable[j].sources)[a];
    }
  }

  // ----- Grouping by dependency closure -----

  datatype Group = Group(ids: seq<nat>, members: seq<nat>)  // members are positions in the retainable list

  predicate GroupsOf(retainable: seq<Closure>, n: nat, groups: seq<Group>)
    requires n <= |retainable|
  {
    && (forall g :: 0 <= g < |groups| ==>
                      && |groups[g].members| > 0
                      && forall k :: 0 <= k < |groups[g].members| ==>
                                       groups[g].members[k] < n && Ids(retainable[groups[g].members[k]].sources) == groups[g].ids)
    && (forall i :: 0 <= i < n ==> InSomeGroup(groups, i))
    && (forall g, h :: 0 <= g < h < |groups| ==> groups[g].ids != groups[h].ids)
    && (forall g, k, l :: 0 <= g < |groups| && 0 <= k < l < |groups[g].members| ==> groups[g].members[k] < groups[g].members[l])
    && (forall g, h :: 0 <= g < h < |groups| ==> groups[g].members[0] < groups[h].members[0])
  }

  predicate InSomeGroup(groups: seq<Group>, i: nat) {
    exists g :: 0 <= g < |groups| && i in groups[g].members
  }

  lemma StillInSomeGroup(groups: seq<Group>, groups': seq<Group>, i: nat)
    requires InSomeGroup(groups, i) && |groups| <= |groups'|
    requires forall g :: 0 <= g < |groups| ==> groups[g].members <= groups'[g].members
    ensures InSomeGroup(groups', i)
  {
    var g :| 0 <= g < |groups| && i in groups[g].members;
    assert i in groups'[g].members;
  }

  lemma JoinGroup(retainable: seq<Closure>, n: nat, groups: seq<Group>, g: nat)
    requires n < |retainable| && GroupsOf(retainable, n, groups) && g < |groups| && groups[g].ids == Ids(retainable[n].sources)
    ensures GroupsOf(retainable, n + 1, groups[g := Group(groups[g].ids, groups[g].members + [n])])
  {
    hide InSomeGroup, Ids;
    var joined := groups[g := Group(groups[g].ids, groups[g].members + [n])];
    forall i: nat | i <= n
      ensures InSomeGroup(joined, i)
    {
      if i < n {
        StillInSomeGroup(groups, joined, i);
      } else {
        IsInGroup(joined, g, i);
      }
    }
  }

  lemma NewGroup(retainable: seq<Closure>, n: nat, groups: seq<Group>)
    requires n < |retainable| && GroupsOf(retainable, n, groups)
    requires forall g :: 0 <= g < |groups| ==> groups[g].ids != Ids(retainable[n].sources)
    ensures GroupsOf(retainable, n + 1, groups + [Group(Ids(retainable[n].sources), [n])])
  {
    hide InSomeGroup, Ids;
    var more := groups + [Group(Ids(retainable[n].sources), [n])];
    forall i: nat | i <= n
      ensures InSomeGroup(more, i)
    {
      if i < n {
        StillInSomeGroup(groups, more, i);
      } else {
        IsInGroup(more, |groups|, i);
      }
    }
  }

  lemma IsInGroup(groups: seq<Group>, g: nat, i: nat)
    requires g < |groups| && i in groups[g].members
    ensures InSomeGroup(groups, i)
  {
  }

  method GroupClosures(retainable: seq<Closure>) returns (groups: seq<Group>)
    ensures GroupsOf(retainable, |retainable|, groups)
  {
    hide GroupsOf, Ids;
    groups := [];
    NoGroups(retainable);
    for i := 0 to |retainable|
      invariant GroupsOf(retainable, i, groups)
    {
      var ids := Ids(retainable[i].sources);
      var g := 0;
      while g < |groups| && groups[g].ids != ids
        invariant g <= |groups| && forall h :: 0 <= h < g ==> groups[h].ids != ids
      {
        g := g + 1;
      }
      if g < |groups| {
        JoinGroup(retainable, i, groups, g);
        groups := groups[g := Group(ids, groups[g].members + [i])];
      } else {
        NewGroup(retainable, i, groups);
        groups := groups + [Group(ids, [i])];
      }
    }
  }

  lemma NoGroups(retainable: seq<Closure>)
    ensures GroupsOf(retainable, 0, [])
  {
  }

  // ----- Faithful contents -----

  /** What computing an artifact gives: it depends on the module, the discriminator and the source contents alone. */
  type Compute<A> = (nat, string, seq<Fingerprint>) -> A

  ghost predicate FaithfulMemory<A(!new)>(items: Entries<A>, compute: Compute<A>) {
    forall item :: item in items ==> item.artifact == compute(item.key.moduleId, item.key.discriminator, Contents(item.sources))
  }

  ghost predicate FaithfulDisk<A(!new)>(disk: map<DiskKey, map<nat, A>>, compute: Compute<A>) {
    forall key, id :: key in disk && id in disk[key] ==> disk[key][id] == compute(id, key.discriminator, key.contents)
  }

  lemma GetFaithful<A(!new)>(items: Entries<A>, compute: Compute<A>, key: Key, sources: Sources)
    requires FaithfulMemory(items, compute)
    ensures FaithfulMemory(AfterGet(items, key, sources), compute)
    ensures GetResult(items, key, sources).Some? ==>
              GetResult(items, key, sources).value == compute(key.moduleId, key.discriminator, Contents(sources))
  {
    LookupFinds(items, key);
    WithoutMembers(items, key);
    forall x | x in AfterGet(items, key, sources)
      ensures x in items
    {
      if Answers(Lookup(items, key), sources) {
        InAppend(Without(items, key), Lookup(items, key).value, x);
      }
    }
  }

  lemma PutFaithful<A(!new)>(items: Entries<A>, compute: Compute<A>, capacity: nat, item: Entry<A>)
    requires FaithfulMemory(items, compute)
    requires item.artifact == compute(item.key.moduleId, item.key.discriminator, Contents(item.sources))
    ensures FaithfulMemory(AfterPut(items, capacity, item), compute)
  {
    WithoutMembers(items, item.key);
    var full := Without(items, item.key) + [item];
    forall x | x in AfterPut(items, capacity, item)
      ensures x in items || x == item
    {
      assert x in full;
      InAppend(Without(items, item.key), item, x);
    }
  }

  // ----- What a batch of puts leaves behind -----

  /** The entries used since the batch began stand after all others, belong to the batch's keys, and hold
      the items put so far. */
  ghost predicate Split<A(!new)>(items: Entries<A>, older: Entries<A>, recent: Entries<A>,
                                 batch: set<Key>, held: set<Entry<A>>) {
    && items == older + recent
    && Keys(recent) <= batch
    && (forall item :: item in held ==> item in recent)
  }

  ghost predicate HoldsBatch<A(!new)>(items: Entries<A>, capacity: nat, batch: set<Key>, held: set<Entry<A>>) {
    && DistinctKeys(items) && |items| <= capacity && |batch| <= capacity
    && exists older, recent :: Split(items, older, recent, batch, held)
  }

  lemma {:induction false} WithoutAppend<A(!new)>(a: Entries<A>, b: Entries<A>, key: Key)
    ensures Without(a + b, key) == Without(a, key) + Without(b, key)
  {
    if a == [] {
      assert a + b == b;
    } else {
      assert (a + b)[1..] == a[1..] + b;
      WithoutAppend(a[1..], b, key);
    }
  }

  lemma KeysWithout<A(!new)>(items: Entries<A>, key: Key)
    ensures Keys(Without(items, key)) <= Keys(items)
  {
    WithoutMembers(items, key);
    forall k | k in Keys(Without(items, key))
      ensures k in Keys(items)
    {
      var i :| 0 <= i < |Without(items, key)| && Without(items, key)[i].key == k;
      assert Without(items, key)[i] in Without(items, key);
      var j :| 0 <= j < |items| && items[j] == Without(items, key)[i];
      assert items[j].key == k;
    }
  }

  lemma {:induction false} DistinctCount<A(!new)>(items: Entries<A>, keys: set<Key>)
    requires DistinctKeys(items) && Keys(items) <= keys
    ensures |items| <= |keys|
  {
    if items != [] {
      var last := items[|items| - 1];
      var rest := items[..|items| - 1];
      assert last.key in Keys(items);
      forall k | k in Keys(rest)
        ensures k in keys - {last.key}
      {
        var i :| 0 <= i < |rest| && rest[i].key == k;
        assert items[i].key == k;
      }
      DistinctCount(rest, keys - {last.key});
    }
  }

  /** Moving a batch item to the end: the split moves with it. */
  lemma SplitMove<A(!new)>(items: Entries<A>, older: Entries<A>, recent: Entries<A>,
                           batch: set<Key>, held: set<Entry<A>>, item: Entry<A>, held': set<Entry<A>>)
    requires Split(items, older, recent, batch, held) && item.key in batch
    requires forall x :: x in held' ==> x == item || (x in held && x.key != item.key)
    ensures Split(Without(items, item.key) + [item], Without(older, item.key), Without(recent, item.key) + [item], batch, held')
  {
    WithoutAppend(older, recent, item.key);
    KeysWithout(recent, item.key);
    KeysAppend(Without(recent, item.key), item);
    WithoutMembers(recent, item.key);
    forall x | x in held'
      ensures x in Without(recent, item.key) + [item]
    {
      InAppend(Without(recent, item.key), item, x);
    }
  }

  /** A hit on a batch key joins what the batch holds. */
  lemma BatchGet<A(!new)>(items: Entries<A>, capacity: nat, batch: set<Key>, held: set<Entry<A>>, key: Key, sources: Sources)
    requires HoldsBatch(items, capacity, batch, held) && key in batch
    ensures HoldsBatch(AfterGet(items, key, sources), capacity, batch, held)
    ensures GetResult(items, key, sources).Some? ==>
              HoldsBatch(AfterGet(items, key, sources), capacity, batch, held + {Item(key, sources, GetResult(items, key, sources).value)})
  {
    GetKeepsValid(items, capacity, key, sources);
    LookupFinds(items, key);
    if Answers(Lookup(items, key), sources) {
      var item := Lookup(items, key).value;
      var older, recent :| Split(items, older, recent, batch, held);
      forall x | x in held
        ensures x == item || x.key != key
      {
        assert x in items;
        LookupIs(items, x);
      }
      SplitMove(items, older, recent, batch, held, item, held);
      SplitMove(items, older, recent, batch, held, item, held + {item});
    }
  }

  lemma BatchPut<A(!new)>(items: Entries<A>, capacity: nat, batch: set<Key>, held: set<Entry<A>>, item: Entry<A>)
    requires HoldsBatch(items, capacity, batch, held) && item.key in batch
    requires forall x :: x in held && x.key == item.key ==> x == item
    ensures HoldsBatch(AfterPut(items, capacity, item), capacity, batch, held + {item})
  {
    var older, recent :| Split(items, older, recent, batch, held);
    SplitMove(items, older, recent, batch, held, item, held + {item});
    PutDistinct(items, item);
    TrimSplit(Without(items, item.key) + [item], capacity, Without(older, item.key), Without(recent, item.key) + [item], batch, held + {item});
  }

  lemma PutDistinct<A(!new)>(items: Entries<A>, item: Entry<A>)
    requires DistinctKeys(items)
    ensures DistinctKeys(Without(items, item.key) + [item]) && |Without(items, item.key) + [item]| <= |items| + 1
  {
    WithoutKeeps(items, item.key);
    AppendDistinct(Without(items, item.key), item);
  }

  /** Trimming one entry takes it from before the batch's: the batch fits the capacity. */
  lemma TrimSplit<A(!new)>(full: Entries<A>, capacity: nat, older: Entries<A>, recent: Entries<A>,
                           batch: set<Key>, held: set<Entry<A>>)
    requires DistinctKeys(full) && |full| <= capacity + 1 && |batch| <= capacity && Split(full, older, recent, batch, held)
    ensures HoldsBatch(Trim(full, capacity), capacity, batch, held)
  {
    assert forall i :: 0 <= i < |recent| ==> recent[i] == full[|older| + i];
    DistinctCount(recent, batch);
    if |full| > capacity {
      assert full[1..] == older[1..] + recent;
      assert Split(full[1..], older[1..], recent, batch, held);
    }
  }

  /** An item held by the batch answers for its own key and sources. */
  lemma BatchHit<A(!new)>(items: Entries<A>, capacity: nat, batch: set<Key>, held: set<Entry<A>>, item: Entry<A>)
    requires HoldsBatch(items, capacity, batch, held) && item in held
    ensures GetResult(items, item.key, item.sources) == Some(item.artifact)
  {
    var older, recent :| Split(items, older, recent, batch, held);
    assert item in items;
    LookupIs(items, item);
  }

  /** Reading the store changes no answer. */
  lemma GetKeepsAnswers<A(!new)>(items: Entries<A>, key: Key, sources: Sources, key': Key, sources': Sources)
    requires DistinctKeys(items)
    ensures GetResult(AfterGet(items, key, sources), key', sources') == GetResult(items, key', sources')
  {
    var after := AfterGet(items, key, sources);
    LookupFinds(items, key);
    LookupFinds(items, key');
    LookupFinds(after, key');
    GetKeepsValid(items, |items|, key, sources);
    WithoutMembers(items, key);
    if Answers(Lookup(items, key), sources) {
      var moved := Lookup(items, key).value;
      if HasKey(items, key') {
        var item := Lookup(items, key').value;
        LookupIs(items, moved);
        InAppend(Without(items, key), moved, item);
        LookupIs(after, item);
      } else if HasKey(after, key') {
        InAppend(Without(items, key), moved, Lookup(after, key').value);
        LookupIs(items, Lookup(after, key').value);
      }
    }
  }

  function KeyOf(closure: Closure, discriminator: string): Key {
    Key(closure.moduleId, discriminator)
  }

  /** The batch of a retainable list: its modules' keys. */
  function Batch(retainable: seq<Closure>, discriminator: string): (keys: set<Key>)
    ensures |keys| <= |retainable|
  {
    if retainable == [] then {}
    else
      var rest := Batch(retainable[1..], discriminator);
      assert |{KeyOf(retainable[0], discriminator)} + rest| <= 1 + |rest|;
      {KeyOf(retainable[0], discriminator)} + rest
  }

  lemma {:induction false} InBatch(retainable: seq<Closure>, discriminator: string, i: nat)
    requires i < |retainable|
    ensures KeyOf(retainable[i], discriminator) in Batch(retainable, discriminator)
  {
    if i > 0 {
      InBatch(retainable[1..], discriminator, i - 1);
    }
  }

  /** The entry a faithful store holds for a module. */
  ghost function Expected<A>(closure: Closure, discriminator: string, compute: Compute<A>): Entry<A> {
    Item(KeyOf(closure, discriminator), closure.sources, compute(closure.moduleId, discriminator, Contents(closure.sources)))
  }

  ghost predicate HoldsMembers<A(!new)>(retainable: seq<Closure>, discriminator: string, compute: Compute<A>,
                                        members: seq<nat>, n: nat,
                                        held: set<Entry<A>>)
    requires n <= |members| && forall k :: 0 <= k < |members| ==> members[k] < |retainable|
  {
    forall k :: 0 <= k < n ==> Expected(retainable[members[k]], discriminator, compute) in held
  }

  /** Everything held is what is expected of some module of the list. */
  ghost predicate HeldExpected<A(!new)>(retainable: seq<Closure>, discriminator: string, compute: Compute<A>, held: set<Entry<A>>) {
    forall x :: x in held ==> exists i :: 0 <= i < |retainable| && x == Expected(retainable[i], discriminator, compute)
  }

  lemma HeldUnique<A(!new)>(retainable: seq<Closure>, discriminator: string, compute: Compute<A>, held: set<Entry<A>>, i: nat)
    requires OneGraph(retainable) && HeldExpected(retainable, discriminator, compute, held) && i < |retainable|
    ensures forall x :: x in held && x.key == KeyOf(retainable[i], discriminator) ==> x == Expected(retainable[i], discriminator, compute)
  {
  }

  // ----- Serving and retaining, step by step on the store's contents -----

  /** What serving and retaining a list keep of the store: it is faithful, and, when `tracked`, the list's
      entries used so far are safe from eviction. */
  ghost predicate BatchState<A(!new)>(items: Entries<A>, capacity: nat, compute: Compute<A>, retainable: seq<Closure>,
                                      discriminator: string, tracked: bool, held: set<Entry<A>>) {
    && DistinctKeys(items) && |items| <= capacity && FaithfulMemory(items, compute)
    && HeldExpected(retainable, discriminator, compute, held)
    && (tracked ==> HoldsBatch(items, capacity, Batch(retainable, discriminator), held))
  }

  ghost predicate Hit<A(!new)>(items: Entries<A>, closure: Closure, discriminator: string) {
    GetResult(items, KeyOf(closure, discriminator), closure.sources).Some?
  }

  ghost predicate SameHits<A(!new)>(items: Entries<A>, items': Entries<A>, discriminator: string) {
    forall c: Closure :: Hit(items', c, discriminator) <==> Hit(items, c, discriminator)
  }

  lemma HeldMore<A(!new)>(retainable: seq<Closure>, discriminator: string, compute: Compute<A>, held: set<Entry<A>>, i: nat)
    requires HeldExpected(retainable, discriminator, compute, held) && i < |retainable|
    ensures HeldExpected(retainable, discriminator, compute, held + {Expected(retainable[i], discriminator, compute)})
  {
  }

  lemma StateGet<A(!new)>(items: Entries<A>, capacity: nat, compute: Compute<A>, retainable: seq<Closure>,
                          discriminator: string, tracked: bool, held: set<Entry<A>>, i: nat)
    requires BatchState(items, capacity, compute, retainable, discriminator, tracked, held) && i < |retainable|
    ensures var closure := retainable[i];
            var after := AfterGet(items, KeyOf(closure, discriminator), closure.sources);
            && SameHits(items, after, discriminator)
            && BatchState(after, capacity, compute, retainable, discriminator, tracked,
                          if Hit(items, closure, discriminator) then held + {Expected(closure, discriminator, compute)} else held)
  {
    var closure := retainable[i];
    var key := KeyOf(closure, discriminator);
    GetKeepsValid(items, capacity, key, closure.sources);
    GetFaithful(items, compute, key, closure.sources);
    InBatch(retainable, discriminator, i);
    HeldMore(retainable, discriminator, compute, held, i);
    if tracked {
      BatchGet(items, capacity, Batch(retainable, discriminator), held, key, closure.sources);
    }
    forall c: Closure
      ensures Hit(AfterGet(items, key, closure.sources), c, discriminator) <==> Hit(items, c, discriminator)
    {
      GetKeepsAnswers(items, key, closure.sources, KeyOf(c, discriminator), c.sources);
    }
  }

  lemma StatePut<A(!new)>(items: Entries<A>, capacity: nat, compute: Compute<A>, retainable: seq<Closure>,
                          discriminator: string, tracked: bool, held: set<Entry<A>>, i: nat)
    requires BatchState(items, capacity, compute, retainable, discriminator, tracked, held) && i < |retainable| && OneGraph(retainable)
    ensures var item := Expected(retainable[i], discriminator, compute);
            BatchState(AfterPut(items, capacity, item), capacity, compute, retainable, discriminator, tracked, held + {item})
  {
    var item := Expected(retainable[i], discriminator, compute);
    PutDistinct(items, item);
    PutFaithful(items, compute, capacity, item);
    InBatch(retainable, discriminator, i);
    HeldMore(retainable, discriminator, compute, held, i);
    HeldUnique(retainable, discriminator, compute, held, i);
    if tracked {
      BatchPut(items, capacity, Batch(retainable, discriminator), held, item);
    }
  }

  /** A held entry answers with the expected artifact. */
  lemma HeldAnswers<A(!new)>(items: Entries<A>, capacity: nat, compute: Compute<A>, retainable: seq<Closure>,
                             discriminator: string, held: set<Entry<A>>, closure: Closure)
    requires BatchState(items, capacity, compute, retainable, discriminator, true, held)
    requires Expected(closure, discriminator, compute) in held
    ensures GetResult(items, KeyOf(closure, discriminator), closure.sources)
         == Some(compute(closure.moduleId, discriminator, Contents(closure.sources)))
  {
    BatchHit(items, capacity, Batch(retainable, discriminator), held, Expected(closure, discriminator, compute));
  }

  ghost predicate Saved<A(!new)>(disk: map<DiskKey, map<nat, A>>, closure: Closure, discriminator: string,
                                 readable: DiskKey -> bool) {
    var key := DiskKey(discriminator, Contents(closure.sources));
    key in disk && readable(key) && closure.moduleId in disk[key]
  }

  // ----- The cache of one stage's artifacts -----

  class ArtifactCache<A(!new)> {
    const persist: bool
    const store: ArtifactStore<Key, Sources, A>
    var disk: map<DiskKey, map<nat, A>>
    ghost const compute: Compute<A>

    /** Memory and disk hold only what computing would give. */
    ghost predicate Valid()
      reads this, store
    {
      store.Valid() && FaithfulMemory(store.items, compute) && FaithfulDisk(disk, compute)
    }

    constructor (capacity: nat, persist: bool, disk: map<DiskKey, map<nat, A>>, ghost compute: Compute<A>)
      requires FaithfulDisk(disk, compute)
      ensures Valid() && fresh(store) && store.capacity == capacity && store.items == []
      ensures this.persist == persist && this.disk == disk && this.compute == compute
    {
      this.persist, this.disk, this.compute := persist, disk, compute;
      store := new ArtifactStore(capacity);
    }

    /** Ask memory for a module's artifact, which makes it the most recent. */
    method Ask(retainable: seq<Closure>, i: nat, sources: Sources, discriminator: string, ghost tracked: bool, ghost held: set<Entry<A>>)
      returns (found: Option<A>, ghost held': set<Entry<A>>)
      requires store.Valid() && i < |retainable| && sources == retainable[i].sources
      requires BatchState(store.items, store.capacity, compute, retainable, discriminator, tracked, held)
      modifies store
      ensures store.Valid() && held <= held' && SameHits(old(store.items), store.items, discriminator)
      ensures BatchState(store.items, store.capacity, compute, retainable, discriminator, tracked, held')
      ensures store.items == AfterGet(old(store.items), KeyOf(retainable[i], discriminator), sources)
      ensures found.Some? <==> Hit(old(store.items), retainable[i], discriminator)
      ensures found.Some? ==> found.value == Expected(retainable[i], discriminator, compute).artifact
                              && Expected(retainable[i], discriminator, compute) in held'
    {
      var closure := retainable[i];
      StateGet(store.items, store.capacity, compute, retainable, discriminator, tracked, held, i);
      GetFaithful(store.items, compute, KeyOf(closure, discriminator), closure.sources);
      found := store.Get(KeyOf(closure, discriminator), sources);
      held' := if found.Some? then held + {Expected(closure, discriminator, compute)} else held;
    }

    /** Whether every member of a group is in memory, asking until one is not. */
    method GroupHeld(retainable: seq<Closure>, members: seq<nat>, discriminator: string, ghost tracked: bool,
                     ghost held: set<Entry<A>>)
      returns (all: bool, ghost held': set<Entry<A>>)
      requires store.Valid() && forall k :: 0 <= k < |members| ==> members[k] < |retainable|
      requires BatchState(store.items, store.capacity, compute, retainable, discriminator, tracked, held)
      modifies store
      ensures store.Valid() && held <= held'
      ensures BatchState(store.items, store.capacity, compute, retainable, discriminator, tracked, held')
      ensures SameHits(old(store.items), store.items, discriminator)
      ensures all <==> AllHit(old(store.items), retainable, members, discriminator)
      ensures store.items == AskedMembers(old(store.items), retainable, members, discriminator, 0)
      ensures all ==> HoldsMembers(retainable, discriminator, compute, members, |members|, held')
    {
      hide BatchState, Expected, KeyOf, GetResult, DistinctKeys;
      held' := held;
      for k := 0 to |members|
        invariant store.Valid() && held <= held'
        invariant BatchState(store.items, store.capacity, compute, retainable, discriminator, tracked, held')
        invariant SameHits(old(store.items), store.items, discriminator)
        invariant forall l :: 0 <= l < k ==> Hit(old(store.items), retainable[members[l]], discriminator)
        invariant HoldsMembers(retainable, discriminator, compute, members, k, held')
        invariant AskedMembers(store.items, retainable, members, discriminator, k)
               == AskedMembers(old(store.items), retainable, members, discriminator, 0)
      {
        var closure := retainable[members[k]];
        assert Hit(store.items, closure, discriminator) <==> Hit(old(store.items), closure, discriminator);
        ghost var before := store.items;
        var found;
        found, held' := Ask(retainable, members[k], closure.sources, discriminator, tracked, held');
        if found.None? {
          MissKeeps(before, closure, discriminator);
          return false, held';
        }
      }
      all := true;
    }

    /** Put back what a payload holds of a group's members. */
    method RestoreGroup(retainable: seq<Closure>, members: seq<nat>, discriminator: string, payload: map<nat, A>,
                        ghost tracked: bool, ghost held: set<Entry<A>>)
      returns (ghost held': set<Entry<A>>)
      requires store.Valid() && OneGraph(retainable) && forall k :: 0 <= k < |members| ==> members[k] < |retainable|
      requires BatchState(store.items, store.capacity, compute, retainable, discriminator, tracked, held)
      requires forall k :: 0 <= k < |members| && retainable[members[k]].moduleId in payload ==>
                             payload[retainable[members[k]].moduleId] == Expected(retainable[members[k]], discriminator, compute).artifact
      modifies store
      ensures store.Valid() && held <= held'
      ensures BatchState(store.items, store.capacity, compute, retainable, discriminator, tracked, held')
      ensures forall k :: 0 <= k < |members| && retainable[members[k]].moduleId in payload ==>
                            Expected(retainable[members[k]], discriminator, compute) in held'
      ensures store.items == PutAll(old(store.items), store.capacity, retainable, members, discriminator, payload, |members|)
    {
      hide BatchState, OneGraph, GetResult;
      held' := held;
      for k := 0 to |members|
        invariant store.Valid() && held <= held'
        invariant BatchState(store.items, store.capacity, compute, retainable, discriminator, tracked, held')
        invariant forall l :: 0 <= l < k && retainable[members[l]].moduleId in payload ==>
                                Expected(retainable[members[l]], discriminator, compute) in held'
        invariant store.items == PutAll(old(store.items), store.capacity, retainable, members, discriminator, payload, k)
      {
        var closure := retainable[members[k]];
        if closure.moduleId in payload {
          StatePut(store.items, store.capacity, compute, retainable, discriminator, tracked, held', members[k]);
          store.Put(KeyOf(closure, discriminator), closure.sources, payload[closure.moduleId]);
          held' := held' + {Expected(closure, discriminator, compute)};
        }
      }
    }

    /** Whether disk can answer for a module. */
    ghost predicate OnDisk(closure: Closure, discriminator: string, readable: DiskKey -> bool)
      reads this
    {
      persist && Saved(disk, closure, discriminator, readable)
    }

    /** What bringing back what disk holds makes of memory: nothing without persistence. */
    ghost predicate Restoring(items: Entries<A>, restored: Entries<A>, retainable: seq<Closure>, groups: seq<Group>,
                              discriminator: string, readable: DiskKey -> bool)
      reads this
    {
      if persist
      then && GroupsOf(retainable, |retainable|, groups)
           && restored == RestoredAt(items, store.capacity, disk, retainable, groups, |groups|, discriminator, readable)
      else restored == items
    }

    /** Bring what disk holds into memory, group by group; `readable` says which payloads can be loaded, and `kept`
        is what of the list memory already holds safe from eviction. */
    method RestoreAll(retainable: seq<Closure>, discriminator: string, readable: DiskKey -> bool, ghost tracked: bool,
                      ghost kept: set<Entry<A>>)
      returns (ghost held: set<Entry<A>>, ghost groups: seq<Group>)
      requires Valid() && OneGraph(retainable)
      requires BatchState(store.items, store.capacity, compute, retainable, discriminator, tracked, kept)
      modifies store
      ensures store.Valid() && kept <= held
      ensures BatchState(store.items, store.capacity, compute, retainable, discriminator, tracked, held)
      ensures Restoring(old(store.items), store.items, retainable, groups, discriminator, readable)
      ensures forall i :: 0 <= i < |retainable| && OnDisk(retainable[i], discriminator, readable) ==>
                            Expected(retainable[i], discriminator, compute) in held
    {
      hide Expected, KeyOf, GetResult, FaithfulMemory, FaithfulDisk, HeldExpected, HoldsBatch, DistinctKeys, Saved, OneGraph, BatchState;
      held, groups := kept, [];
      if !persist {
        return;
      }
      var all := GroupClosures(retainable);
      groups := all;
      for g := 0 to |all|
        invariant store.Valid() && kept <= held
        invariant BatchState(store.items, store.capacity, compute, retainable, discriminator, tracked, held)
        invariant store.items == RestoredAt(old(store.items), store.capacity, disk, retainable, groups, g, discriminator, readable)
        invariant forall h, i :: 0 <= h < g && i in groups[h].members && OnDisk(retainable[i], discriminator, readable) ==>
                                   Expected(retainable[i], discriminator, compute) in held
      {
        StateFaithful(store.items, store.capacity, compute, retainable, discriminator, tracked, held);
        held := RestoreNext(retainable, all[g].members, discriminator, readable, tracked, held);
      }
      forall i | 0 <= i < |retainable| && OnDisk(retainable[i], discriminator, readable)
        ensures Expected(retainable[i], discriminator, compute) in held
      {
        assert InSomeGroup(groups, i);
      }
    }

    /** Bring what disk holds of one group into memory, unless memory has it all. */
    method RestoreNext(retainable: seq<Closure>, members: seq<nat>, discriminator: string, readable: DiskKey -> bool,
                       ghost tracked: bool, ghost held: set<Entry<A>>)
      returns (ghost held': set<Entry<A>>)
      requires Valid() && OneGraph(retainable) && persist
      requires |members| > 0 && forall k :: 0 <= k < |members| ==> members[k] < |retainable|
      requires forall k :: 0 <= k < |members| ==> Ids(retainable[members[k]].sources) == Ids(retainable[members[0]].sources)
      requires BatchState(store.items, store.capacity, compute, retainable, discriminator, tracked, held)
      modifies store
      ensures store.Valid() && held <= held'
      ensures BatchState(store.items, store.capacity, compute, retainable, discriminator, tracked, held')
      ensures store.items == AfterRestore(old(store.items), store.capacity, disk, retainable, members, discriminator, readable)
      ensures forall i :: i in members && OnDisk(retainable[i], discriminator, readable) ==>
                            Expected(retainable[i], discriminator, compute) in held'
    {
      hide BatchState, OneGraph, FaithfulMemory, AskedMembers, PutAll, KeyOf, GetResult;
      var all;
      all, held' := GroupHeld(retainable, members, discriminator, tracked, held);
      if !all {
        var key := DiskKey(discriminator, Contents(retainable[members[0]].sources));
        GroupContents(retainable, members);
        if key in disk && readable(key) {
          held' := RestoreGroup(retainable, members, discriminator, disk[key], tracked, held');
        }
      }
    }

    /** Serve, given what of the list memory already holds safe from eviction. */
    method ServeKeeping(retainable: seq<Closure>, discriminator: string, readable: DiskKey -> bool, ghost kept: set<Entry<A>>)
      returns (served: map<nat, A>, ghost groups: seq<Group>, ghost restored: Entries<A>)
      requires Valid() && OneGraph(retainable)
      requires BatchState(store.items, store.capacity, compute, retainable, discriminator, |retainable| <= store.capacity, kept)
      modifies store
      ensures Valid()
      ensures Restoring(old(store.items), restored, retainable, groups, discriminator, readable)
      ensures Collected(restored, retainable, discriminator, |retainable|, served)
      ensures store.items == AskedEach(restored, retainable, discriminator, |retainable|)
      ensures |retainable| <= store.capacity ==>
                forall i :: 0 <= i < |retainable|
                            && (OnDisk(retainable[i], discriminator, readable) || Expected(retainable[i], discriminator, compute) in kept) ==>
                              retainable[i].moduleId in served
    {
      hide Expected, OneGraph, FaithfulMemory, FaithfulDisk, Restoring, BatchState, KeyOf, AskedEach;
      ghost var tracked := |retainable| <= store.capacity;
      ghost var held;
      held, groups := RestoreAll(retainable, discriminator, readable, tracked, kept);
      restored := store.items;
      served := Collect(retainable, discriminator, tracked, held);
      forall i | 0 <= i < |retainable| && tracked && Expected(retainable[i], discriminator, compute) in held
        ensures Hit(restored, retainable[i], discriminator)
      {
        HeldAnswers(restored, store.capacity, compute, retainable, discriminator, held, retainable[i]);
      }
    }

    /** Collect every artifact these modules still qualify for: exactly those memory answers for once what disk
        holds is brought back. As long as nothing needs to be evicted, that is those memory or disk had. */
    method Served(retainable: seq<Closure>, discriminator: string, readable: DiskKey -> bool)
      returns (served: map<nat, A>, ghost groups: seq<Group>, ghost restored: Entries<A>)
      requires Valid() && OneGraph(retainable)
      modifies store
      ensures Valid()
      ensures forall id :: id in served ==> exists i :: 0 <= i < |retainable| && retainable[i].moduleId == id
      ensures forall i :: 0 <= i < |retainable| && retainable[i].moduleId in served ==>
                            served[retainable[i].moduleId] == compute(retainable[i].moduleId, discriminator, Contents(retainable[i].sources))
      ensures persist ==> GroupsOf(retainable, |retainable|, groups)
                          && restored == RestoredAt(old(store.items), store.capacity, disk, retainable, groups, |groups|, discriminator, readable)
      ensures !persist ==> restored == old(store.items)
      ensures forall i :: 0 <= i < |retainable| ==>
                            (retainable[i].moduleId in served <==> Hit(restored, retainable[i], discriminator))
      ensures !persist ==> forall i :: 0 <= i < |retainable| ==>
                            (retainable[i].moduleId in served <==> Hit(old(store.items), retainable[i], discriminator))
      ensures forall i :: 0 <= i < |retainable| && retainable[i].moduleId in served ==>
                            Hit(old(store.items), retainable[i], discriminator) || OnDisk(retainable[i], discriminator, readable)
      ensures |retainable| <= store.capacity ==>
                forall i :: 0 <= i < |retainable| && OnDisk(retainable[i], discriminator, readable) ==> retainable[i].moduleId in served
      ensures |Keys(old(store.items)) + (set i | 0 <= i < |retainable| :: KeyOf(retainable[i], discriminator))| <= store.capacity ==>
                forall i :: 0 <= i < |retainable| ==>
                              (retainable[i].moduleId in served <==>
                               Hit(old(store.items), retainable[i], discriminator) || OnDisk(retainable[i], discriminator, readable))
      ensures (forall i :: 0 <= i < |retainable| ==> Hit(old(store.items), retainable[i], discriminator)) ==>
                forall i :: 0 <= i < |retainable| ==> retainable[i].moduleId in served
      ensures store.items == AskedEach(restored, retainable, discriminator, |retainable|)
    {
      hide OneGraph, FaithfulMemory, FaithfulDisk, BatchState, Hit, AskedEach, RestoredAt, GroupsOf, Saved, Keys, KeyOf;
      ghost var items, room := store.items, Keys(store.items) + ModuleKeys(retainable, discriminator);
      EmptyBatch(store.items, store.capacity, compute, retainable, discriminator, |retainable| <= store.capacity);
      served, groups, restored := ServeKeeping(retainable, discriminator, readable, {});
      if persist {
        RestoringAnswers(items, store.capacity, disk, retainable, groups, |groups|, discriminator, readable);
      }
      if |room| <= store.capacity {
        ModuleKeysCount(retainable, discriminator);
        SmallerKeys(ModuleKeys(retainable, discriminator), room);
      }
    }

    /** What has been collected from the first n closures: exactly the hits, each as computing would give it. */
    ghost predicate Collected(items: Entries<A>, retainable: seq<Closure>, discriminator: string, n: nat,
                              served: map<nat, A>)
      requires n <= |retainable|
    {
      && (forall id :: id in served ==> exists i :: 0 <= i < n && retainable[i].moduleId == id)
      && (forall i :: 0 <= i < n ==> (retainable[i].moduleId in served <==> Hit(items, retainable[i], discriminator)))
      && (forall i :: 0 <= i < n && retainable[i].moduleId in served ==>
                        served[retainable[i].moduleId] == Expected(retainable[i], discriminator, compute).artifact)
    }

    method Collect(retainable: seq<Closure>, discriminator: string, ghost tracked: bool, ghost held: set<Entry<A>>)
      returns (served: map<nat, A>)
      requires store.Valid() && OneGraph(retainable)
      requires BatchState(store.items, store.capacity, compute, retainable, discriminator, tracked, held)
      modifies store
      ensures store.Valid() && FaithfulMemory(store.items, compute)
      ensures Collected(old(store.items), retainable, discriminator, |retainable|, served)
      ensures store.items == AskedEach(old(store.items), retainable, discriminator, |retainable|)
    {
      hide BatchState, OneGraph, GetResult, Expected, KeyOf, DistinctKeys;
      ghost var held' := held;
      served := map[];
      for k := 0 to |retainable|
        invariant store.Valid() && SameHits(old(store.items), store.items, discriminator)
        invariant BatchState(store.items, store.capacity, compute, retainable, discriminator, tracked, held')
        invariant Collected(old(store.items), retainable, discriminator, k, served)
        invariant store.items == AskedEach(old(store.items), retainable, discriminator, k)
      {
        var closure := retainable[k];
        assert Hit(store.items, closure, discriminator) <==> Hit(old(store.items), closure, discriminator);
        var artifact;
        artifact, held' := Ask(retainable, k, closure.sources, discriminator, tracked, held');
        ghost var before := served;
        if artifact.Some? {
          served := served[closure.moduleId := artifact.value];
        }
        CollectOne(old(store.items), retainable, discriminator, k, before, served);
      }
      StateFaithful(store.items, store.capacity, compute, retainable, discriminator, tracked, held');
    }

    lemma CollectOne(items: Entries<A>, retainable: seq<Closure>, discriminator: string, k: nat,
                     before: map<nat, A>, served: map<nat, A>)
      requires k < |retainable| && OneGraph(retainable) && Collected(items, retainable, discriminator, k, before)
      requires served == if Hit(items, retainable[k], discriminator)
                         then before[retainable[k].moduleId := Expected(retainable[k], discriminator, compute).artifact] else before
      ensures Collected(items, retainable, discriminator, k + 1, served)
    {
      hide Hit, Expected, KeyOf;
      forall i | 0 <= i < k
        ensures retainable[i].moduleId != retainable[k].moduleId
      {
      }
    }

    /** Ask for each member that has an artifact, until one is not in memory. */
    method AnyMissing(retainable: seq<Closure>, members: seq<nat>, sources: Sources, discriminator: string, artifacts: map<nat, A>,
                      ghost tracked: bool, ghost held: set<Entry<A>>)
      returns (missing: bool, ghost held': set<Entry<A>>)
      requires store.Valid() && forall k :: 0 <= k < |members| ==> members[k] < |retainable| && retainable[members[k]].sources == sources
      requires BatchState(store.items, store.capacity, compute, retainable, discriminator, tracked, held)
      modifies store
      ensures store.Valid() && held <= held'
      ensures BatchState(store.items, store.capacity, compute, retainable, discriminator, tracked, held')
      ensures SameHits(old(store.items), store.items, discriminator)
      ensures missing <==> MemberMissing(old(store.items), retainable, members, discriminator, artifacts)
      ensures store.items == Asked(old(store.items), retainable, members, discriminator, artifacts, 0)
    {
      hide BatchState;
      held' := held;
      for k := 0 to |members|
        invariant store.Valid() && held <= held'
        invariant BatchState(store.items, store.capacity, compute, retainable, discriminator, tracked, held')
        invariant SameHits(old(store.items), store.items, discriminator)
        invariant !MemberMissing(old(store.items), retainable, members[..k], discriminator, artifacts)
        invariant Asked(store.items, retainable, members, discriminator, artifacts, k)
               == Asked(old(store.items), retainable, members, discriminator, artifacts, 0)
      {
        var closure := retainable[members[k]];
        MissingNext(old(store.items), retainable, members, discriminator, artifacts, k);
        if closure.moduleId in artifacts {
          assert Hit(store.items, closure, discriminator) <==> Hit(old(store.items), closure, discriminator);
          var found;
          found, held' := Ask(retainable, members[k], sources, discriminator, tracked, held');
          if found.None? {
            return true, held';
          }
        }
      }
      assert members[..|members|] == members;
      missing := false;
    }

    /** Put every member that has an artifact. */
    method PutMembers(retainable: seq<Closure>, members: seq<nat>, sources: Sources, discriminator: string, artifacts: map<nat, A>,
                      ghost tracked: bool, ghost held: set<Entry<A>>)
      returns (ghost held': set<Entry<A>>)
      requires store.Valid() && OneGraph(retainable)
      requires forall k :: 0 <= k < |members| ==> members[k] < |retainable| && retainable[members[k]].sources == sources
      requires BatchState(store.items, store.capacity, compute, retainable, discriminator, tracked, held)
      requires forall k :: 0 <= k < |members| && retainable[members[k]].moduleId in artifacts ==>
                             artifacts[retainable[members[k]].moduleId] == Expected(retainable[members[k]], discriminator, compute).artifact
      modifies store
      ensures store.Valid() && held <= held'
      ensures BatchState(store.items, store.capacity, compute, retainable, discriminator, tracked, held')
      ensures forall k :: 0 <= k < |members| && retainable[members[k]].moduleId in artifacts ==>
                            Expected(retainable[members[k]], discriminator, compute) in held'
      ensures OnlyMembersAdded(old(store.items), store.items, retainable, members, discriminator)
      ensures store.items == PutAll(old(store.items), store.capacity, retainable, members, discriminator, artifacts, |members|)
    {
      hide BatchState, OneGraph, GetResult;
      held' := held;
      for k := 0 to |members|
        invariant store.Valid() && held <= held'
        invariant BatchState(store.items, store.capacity, compute, retainable, discriminator, tracked, held')
        invariant forall l :: 0 <= l < k && retainable[members[l]].moduleId in artifacts ==>
                                Expected(retainable[members[l]], discriminator, compute) in held'
        invariant OnlyMembersAdded(old(store.items), store.items, retainable, members, discriminator)
        invariant store.items == PutAll(old(store.items), store.capacity, retainable, members, discriminator, artifacts, k)
      {
        var closure := retainable[members[k]];
        if closure.moduleId in artifacts {
          StatePut(store.items, store.capacity, compute, retainable, discriminator, tracked, held', members[k]);
          PutAddsOnlyItsKey(store.items, store.capacity, Expected(closure, discriminator, compute), discriminator);
          store.Put(KeyOf(closure, discriminator), sources, artifacts[closure.moduleId]);
          held' := held' + {Expected(closure, discriminator, compute)};
        }
      }
    }

    /** The payload a group is saved as. */
    function Payload(retainable: seq<Closure>, members: seq<nat>, artifacts: map<nat, A>): map<nat, A>
      requires forall k :: 0 <= k < |members| ==> members[k] < |retainable|
    {
      map id | id in artifacts.Keys && id in (set k | 0 <= k < |members| :: retainable[members[k]].moduleId) :: artifacts[id]
    }

    /** The artifacts handed over for retention are those computing gives. */
    ghost predicate Computed(retainable: seq<Closure>, discriminator: string, artifacts: map<nat, A>) {
      forall i :: 0 <= i < |retainable| && retainable[i].moduleId in artifacts ==>
                    artifacts[retainable[i].moduleId] == Expected(retainable[i], discriminator, compute).artifact
    }

    lemma PayloadFaithful(disk: map<DiskKey, map<nat, A>>, retainable: seq<Closure>, members: seq<nat>, discriminator: string,
                          artifacts: map<nat, A>)
      requires OneGraph(retainable) && Computed(retainable, discriminator, artifacts) && FaithfulDisk(disk, compute)
      requires |members| > 0 && forall k :: 0 <= k < |members| ==> members[k] < |retainable|
      requires forall k :: 0 <= k < |members| ==> Ids(retainable[members[k]].sources) == Ids(retainable[members[0]].sources)
      ensures FaithfulDisk(disk[DiskKey(discriminator, Contents(retainable[members[0]].sources)) := Payload(retainable, members, artifacts)], compute)
    {
      GroupContents(retainable, members);
      var key := DiskKey(discriminator, Contents(retainable[members[0]].sources));
      forall id | id in Payload(retainable, members, artifacts)
        ensures Payload(retainable, members, artifacts)[id] == compute(id, key.discriminator, key.contents)
      {
        var k :| 0 <= k < |members| && retainable[members[k]].moduleId == id;
        assert retainable[members[k]].sources == retainable[members[0]].sources;
      }
    }

    /** Retain one group's artifacts in memory and, when one of them was missing there, on disk. */
    method RetainGroup(retainable: seq<Closure>, members: seq<nat>, discriminator: string, artifacts: map<nat, A>,
                       writable: DiskKey -> bool,
                       ghost tracked: bool, ghost held: set<Entry<A>>)
      returns (ghost held': set<Entry<A>>)
      requires store.Valid() && FaithfulDisk(disk, compute) && OneGraph(retainable) && Computed(retainable, discriminator, artifacts)
      requires |members| > 0 && forall k :: 0 <= k < |members| ==> members[k] < |retainable|
      requires forall k :: 0 <= k < |members| ==> Ids(retainable[members[k]].sources) == Ids(retainable[members[0]].sources)
      requires BatchState(store.items, store.capacity, compute, retainable, discriminator, tracked, held)
      modifies this`disk, store
      ensures store.Valid() && FaithfulDisk(disk, compute) && held <= held'
      ensures BatchState(store.items, store.capacity, compute, retainable, discriminator, tracked, held')
      ensures forall k :: 0 <= k < |members| && retainable[members[k]].moduleId in artifacts ==>
                            Expected(retainable[members[k]], discriminator, compute) in held'
      ensures OnlyMembersAdded(old(store.items), store.items, retainable, members, discriminator)
      ensures store.items == AfterGroup(old(store.items), store.capacity, retainable, members, discriminator, artifacts)
      ensures disk == DiskAfter(old(store.items), old(disk), retainable, members, discriminator, artifacts, writable)
    {
      hide BatchState, Expected, KeyOf, GetResult, DistinctKeys, OneGraph, Payload;
      GroupContents(retainable, members);
      var sources := retainable[members[0]].sources;
      var key := DiskKey(discriminator, Contents(sources));
      var missing, asked := AnyMissing(retainable, members, sources, discriminator, artifacts, tracked, held);
      held' := PutMembers(retainable, members, sources, discriminator, artifacts, tracked, asked);
      if missing && persist && writable(key) {
        PayloadFaithful(disk, retainable, members, discriminator, artifacts);
        disk := disk[key := Payload(retainable, members, artifacts)];
      }
    }

    /** What retaining the first n groups has done: their artifacts are held and, if one of the group's was not in
        memory to begin with, on disk. */
    ghost predicate Retained(first: Entries<A>, items: Entries<A>, disk: map<DiskKey, map<nat, A>>, retainable: seq<Closure>,
                             groups: seq<Group>,
                             n: nat, discriminator: string, artifacts: map<nat, A>, writable: DiskKey -> bool,
                             held: set<Entry<A>>)
      requires n <= |groups|
    {
      && (forall i :: 0 <= i < |retainable| && AmongGroups(groups, n, i) && retainable[i].moduleId in artifacts ==>
                        Expected(retainable[i], discriminator, compute) in held)
      && (forall i :: 0 <= i < |retainable| && Hit(items, retainable[i], discriminator) && !Hit(first, retainable[i], discriminator) ==>
                        AmongGroups(groups, n, i))
      && (persist ==>
            forall i :: 0 <= i < |retainable| && AmongGroups(groups, n, i) && retainable[i].moduleId in artifacts
                        && GroupMissing(first, retainable, i, discriminator, artifacts)
                        && writable(DiskKey(discriminator, Contents(retainable[i].sources))) ==>
                          Saved(disk, retainable[i], discriminator, writable))
    }

    /** What retaining a group leaves on disk. */
    ghost function DiskAfter(items: Entries<A>, disk: map<DiskKey, map<nat, A>>, retainable: seq<Closure>,
                             members: seq<nat>,
                             discriminator: string, artifacts: map<nat, A>, writable: DiskKey -> bool): map<DiskKey, map<nat, A>>
      requires |members| > 0 && forall k :: 0 <= k < |members| ==> members[k] < |retainable|
    {
      var key := DiskKey(discriminator, Contents(retainable[members[0]].sources));
      if persist && writable(key) && MemberMissing(items, retainable, members, discriminator, artifacts)
      then disk[key := Payload(retainable, members, artifacts)] else disk
    }

    /** What is on disk at the turn of group n. */
    ghost function DiskAt(items: Entries<A>, disk: map<DiskKey, map<nat, A>>, retainable: seq<Closure>, groups: seq<Group>, n: nat,
                          discriminator: string, artifacts: map<nat, A>, writable: DiskKey -> bool): map<DiskKey, map<nat, A>>
      requires GroupsOf(retainable, |retainable|, groups) && n <= |groups|
    {
      if n == 0 then disk
      else DiskAfter(MemoryAt(items, store.capacity, retainable, groups, n - 1, discriminator, artifacts),
                     DiskAt(items, disk, retainable, groups, n - 1, discriminator, artifacts, writable),
                     retainable, groups[n - 1].members, discriminator, artifacts, writable)
    }

    /** What disk has of a group's key. */
    ghost predicate SameAt(disk: map<DiskKey, map<nat, A>>, disk': map<DiskKey, map<nat, A>>, key: DiskKey) {
      (key in disk' <==> key in disk) && (key in disk ==> disk'[key] == disk[key])
    }

    /** The disk key of a group. */
    function GroupKey(retainable: seq<Closure>, group: Group, discriminator: string): DiskKey
      requires |group.members| > 0 && group.members[0] < |retainable|
    {
      DiskKey(discriminator, Contents(retainable[group.members[0]].sources))
    }

    lemma GroupKeysDiffer(retainable: seq<Closure>, groups: seq<Group>, g: nat, h: nat, discriminator: string)
      requires GroupsOf(retainable, |retainable|, groups) && g < h < |groups|
      ensures GroupKey(retainable, groups[g], discriminator) != GroupKey(retainable, groups[h], discriminator)
    {
      var a, b := groups[g].members[0], groups[h].members[0];
      GroupIs(retainable, groups, g, a);
      GroupIs(retainable, groups, h, b);
      if Contents(retainable[a].sources) == Contents(retainable[b].sources) {
        ContentsGiveIds(retainable[a].sources, retainable[b].sources);
      }
    }

    /** A group is saved, whole, exactly if it can be and at its turn a member with an artifact is not in memory;
        else disk keeps what it had of it. */
    lemma {:induction false} SavedIffMissing(items: Entries<A>, disk: map<DiskKey, map<nat, A>>, retainable: seq<Closure>, groups: seq<Group>, n: nat,
                          discriminator: string, artifacts: map<nat, A>, writable: DiskKey -> bool, g: nat)
      requires GroupsOf(retainable, |retainable|, groups) && g < n <= |groups|
      ensures var key := GroupKey(retainable, groups[g], discriminator);
              var disk' := DiskAt(items, disk, retainable, groups, n, discriminator, artifacts, writable);
              var turn := MemoryAt(items, store.capacity, retainable, groups, g, discriminator, artifacts);
              if persist && writable(key) && MemberMissing(turn, retainable, groups[g].members, discriminator, artifacts)
              then key in disk' && disk'[key] == Payload(retainable, groups[g].members, artifacts)
              else SameAt(disk, disk', key)
      decreases n
    {
      hide MemberMissing, Payload, MemoryAt, Contents, InSomeGroup;
      if g < n - 1 {
        SavedIffMissing(items, disk, retainable, groups, n - 1, discriminator, artifacts, writable, g);
        GroupKeysDiffer(retainable, groups, g, n - 1, discriminator);
      } else {
        forall h | 0 <= h < g
          ensures GroupKey(retainable, groups[g], discriminator) != GroupKey(retainable, groups[h], discriminator)
        {
          GroupKeysDiffer(retainable, groups, h, g, discriminator);
        }
        NotYetSaved(items, disk, retainable, groups, g, discriminator, artifacts, writable, GroupKey(retainable, groups[g], discriminator));
      }
    }

    /** Nothing is saved but under the keys of the groups whose turn has come. */
    lemma {:induction false} NotYetSaved(items: Entries<A>, disk: map<DiskKey, map<nat, A>>, retainable: seq<Closure>, groups: seq<Group>, n: nat,
                                         discriminator: string, artifacts: map<nat, A>, writable: DiskKey -> bool, key: DiskKey)
      requires GroupsOf(retainable, |retainable|, groups) && n <= |groups|
      requires forall h :: 0 <= h < n ==> key != GroupKey(retainable, groups[h], discriminator)
      ensures SameAt(disk, DiskAt(items, disk, retainable, groups, n, discriminator, artifacts, writable), key)
      decreases n
    {
      hide MemberMissing, Payload, MemoryAt, Contents;
      if n > 0 {
        NotYetSaved(items, disk, retainable, groups, n - 1, discriminator, artifacts, writable, key);
      }
    }

    /** Retain every artifact belonging to one of these modules; `writable` says which payloads can be saved. */
    method Retain(retainable: seq<Closure>, discriminator: string, artifacts: map<nat, A>, writable: DiskKey -> bool)
      returns (ghost groups: seq<Group>, ghost held: set<Entry<A>>)
      requires Valid() && OneGraph(retainable) && Computed(retainable, discriminator, artifacts)
      modifies this`disk, store
      ensures Valid()
      ensures |retainable| <= store.capacity ==>
                forall i :: 0 <= i < |retainable| && retainable[i].moduleId in artifacts ==>
                              GetResult(store.items, KeyOf(retainable[i], discriminator), retainable[i].sources)
                              == Some(artifacts[retainable[i].moduleId])
      ensures persist ==>
                forall i :: 0 <= i < |retainable| && retainable[i].moduleId in artifacts
                            && GroupMissing(old(store.items), retainable, i, discriminator, artifacts)
                            && writable(DiskKey(discriminator, Contents(retainable[i].sources))) ==>
                              OnDisk(retainable[i], discriminator, writable)
      ensures GroupsOf(retainable, |retainable|, groups)
      ensures store.items == MemoryAt(old(store.items), store.capacity, retainable, groups, |groups|, discriminator, artifacts)
      ensures disk == DiskAt(old(store.items), old(disk), retainable, groups, |groups|, discriminator, artifacts, writable)
      ensures BatchState(store.items, store.capacity, compute, retainable, discriminator, |retainable| <= store.capacity, held)
      ensures forall i :: 0 <= i < |retainable| && retainable[i].moduleId in artifacts ==>
                            Expected(retainable[i], discriminator, compute) in held
    {
      ghost var tracked := |retainable| <= store.capacity;
      ghost var first, stored := store.items, disk;
      held := {};
      EmptyBatch(store.items, store.capacity, compute, retainable, discriminator, tracked);
      var all := GroupClosures(retainable);
      groups := all;
      for g := 0 to |all|
        invariant store.Valid() && FaithfulDisk(disk, compute)
        invariant BatchState(store.items, store.capacity, compute, retainable, discriminator, tracked, held)
        invariant Retained(first, store.items, disk, retainable, groups, g, discriminator, artifacts, writable, held)
        invariant store.items == MemoryAt(first, store.capacity, retainable, groups, g, discriminator, artifacts)
        invariant disk == DiskAt(first, stored, retainable, groups, g, discriminator, artifacts, writable)
      {
        held := RetainNext(retainable, all, g, discriminator, artifacts, writable, tracked, first, held);
      }
      forall i | 0 <= i < |retainable|
        ensures AmongGroups(groups, |groups|, i)
      {
        assert InSomeGroup(groups, i);
      }
      hide BatchState, Hit, AmongGroups;
      forall i | 0 <= i < |retainable| && tracked && retainable[i].moduleId in artifacts
        ensures GetResult(store.items, KeyOf(retainable[i], discriminator), retainable[i].sources) == Some(artifacts[retainable[i].moduleId])
      {
        HeldAnswers(store.items, store.capacity, compute, retainable, discriminator, held, retainable[i]);
      }
    }

    /** Retain the group at a position, after those before it. */
    method RetainNext(retainable: seq<Closure>, groups: seq<Group>, g: nat, discriminator: string, artifacts: map<nat, A>,
                      writable: DiskKey -> bool, ghost tracked: bool, ghost first: Entries<A>, ghost held: set<Entry<A>>)
      returns (ghost held': set<Entry<A>>)
      requires store.Valid() && FaithfulDisk(disk, compute) && OneGraph(retainable) && Computed(retainable, discriminator, artifacts)
      requires GroupsOf(retainable, |retainable|, groups) && g < |groups|
      requires BatchState(store.items, store.capacity, compute, retainable, discriminator, tracked, held)
      requires Retained(first, store.items, disk, retainable, groups, g, discriminator, artifacts, writable, held)
      modifies this`disk, store
      ensures store.Valid() && FaithfulDisk(disk, compute)
      ensures BatchState(store.items, store.capacity, compute, retainable, discriminator, tracked, held')
      ensures Retained(first, store.items, disk, retainable, groups, g + 1, discriminator, artifacts, writable, held')
      ensures store.items == AfterGroup(old(store.items), store.capacity, retainable, groups[g].members, discriminator, artifacts)
      ensures disk == DiskAfter(old(store.items), old(disk), retainable, groups[g].members, discriminator, artifacts, writable)
    {
      held' := RetainGroup(retainable, groups[g].members, discriminator, artifacts, writable, tracked, held);
      RetainedStep(first, old(store.items), old(disk), store.items, retainable, groups, g, discriminator, artifacts, writable, held, held');
    }

    /** Retaining a group keeps what the groups before it have left on disk: they are saved elsewhere. */
    lemma RetainedStep(first: Entries<A>, items: Entries<A>, disk: map<DiskKey, map<nat, A>>, items': Entries<A>,
                       retainable: seq<Closure>, groups: seq<Group>, g: nat, discriminator: string, artifacts: map<nat, A>,
                       writable: DiskKey -> bool, held: set<Entry<A>>, held': set<Entry<A>>)
      requires OneGraph(retainable) && GroupsOf(retainable, |retainable|, groups) && g < |groups| && held <= held'
      requires Retained(first, items, disk, retainable, groups, g, discriminator, artifacts, writable, held)
      requires forall k :: 0 <= k < |groups[g].members| && retainable[groups[g].members[k]].moduleId in artifacts ==>
                             Expected(retainable[groups[g].members[k]], discriminator, compute) in held'
      requires OnlyMembersAdded(items, items', retainable, groups[g].members, discriminator)
      ensures Retained(first, items', DiskAfter(items, disk, retainable, groups[g].members, discriminator, artifacts, writable),
                       retainable, groups, g + 1, discriminator, artifacts, writable, held')
    {
      var members := groups[g].members;
      GroupContents(retainable, members);
      forall i | 0 <= i < |retainable| && AmongGroups(groups, g + 1, i) && retainable[i].moduleId in artifacts
        ensures Expected(retainable[i], discriminator, compute) in held'
      {
        if !AmongGroups(groups, g, i) {
          assert i in members;
        }
      }
      forall i | 0 <= i < |retainable| && Hit(items', retainable[i], discriminator) && !Hit(first, retainable[i], discriminator)
        ensures AmongGroups(groups, g + 1, i)
      {
        if !Hit(items, retainable[i], discriminator) {
          var k :| 0 <= k < |members| && retainable[members[k]].moduleId == retainable[i].moduleId;
          assert members[k] == i;
        }
      }
      if persist {
        forall i | 0 <= i < |retainable| && AmongGroups(groups, g + 1, i) && retainable[i].moduleId in artifacts
                   && GroupMissing(first, retainable, i, discriminator, artifacts)
                   && writable(DiskKey(discriminator, Contents(retainable[i].sources)))
          ensures Saved(DiskAfter(items, disk, retainable, groups[g].members, discriminator, artifacts, writable), retainable[i], discriminator, writable)
        {
          SavedStep(first, items, disk, retainable, groups, g, discriminator, artifacts, writable, held, i);
        }
      }
    }

    /** What an earlier group has left on disk stays: the groups have different contents. */
    lemma SavedStays(items: Entries<A>, disk: map<DiskKey, map<nat, A>>, retainable: seq<Closure>,
                     groups: seq<Group>, g: nat, discriminator: string, artifacts: map<nat, A>,
                     writable: DiskKey -> bool, h: nat, i: nat)
      requires GroupsOf(retainable, |retainable|, groups) && h < g < |groups| && i < |retainable| && i in groups[h].members
      requires Saved(disk, retainable[i], discriminator, writable)
      ensures Saved(DiskAfter(items, disk, retainable, groups[g].members, discriminator, artifacts, writable), retainable[i], discriminator, writable)
    {
      hide MemberMissing, Payload, InSomeGroup;
      var members := groups[g].members;
      var k :| 0 <= k < |groups[h].members| && groups[h].members[k] == i;
      if Contents(retainable[i].sources) == Contents(retainable[members[0]].sources) {
        ContentsGiveIds(retainable[i].sources, retainable[members[0]].sources);
        assert false;
      }
    }

    lemma SavedStep(first: Entries<A>, items: Entries<A>, disk: map<DiskKey, map<nat, A>>, retainable: seq<Closure>,
                    groups: seq<Group>, g: nat, discriminator: string, artifacts: map<nat, A>,
                    writable: DiskKey -> bool, held: set<Entry<A>>, i: nat)
      requires OneGraph(retainable) && GroupsOf(retainable, |retainable|, groups) && g < |groups|
      requires Retained(first, items, disk, retainable, groups, g, discriminator, artifacts, writable, held) && persist
      requires i < |retainable| && AmongGroups(groups, g + 1, i) && retainable[i].moduleId in artifacts
      requires GroupMissing(first, retainable, i, discriminator, artifacts)
      requires writable(DiskKey(discriminator, Contents(retainable[i].sources)))
      ensures Saved(DiskAfter(items, disk, retainable, groups[g].members, discriminator, artifacts, writable), retainable[i], discriminator, writable)
    {
      hide Expected, Hit, KeyOf, OneGraph;
      var members := groups[g].members;
      if AmongGroups(groups, g, i) {
        var h :| 0 <= h < g && i in groups[h].members;
        SavedStays(items, disk, retainable, groups, g, discriminator, artifacts, writable, h, i);
      } else {
        GroupContents(retainable, members);
        assert i in members;
        StillMissing(first, items, retainable, groups, g, discriminator, artifacts, i);
      }
    }
  }

  /** A member of a module's group that was not in memory to begin with is not there at the group's turn. */
  lemma StillMissing<A(!new)>(first: Entries<A>, items: Entries<A>, retainable: seq<Closure>, groups: seq<Group>, g: nat,
                              discriminator: string, artifacts: map<nat, A>, i: nat)
    requires GroupsOf(retainable, |retainable|, groups) && g < |groups| && i < |retainable| && i in groups[g].members
    requires forall i :: 0 <= i < |retainable| && Hit(items, retainable[i], discriminator) && !Hit(first, retainable[i], discriminator) ==>
                           AmongGroups(groups, g, i)
    requires GroupMissing(first, retainable, i, discriminator, artifacts)
    ensures MemberMissing(items, retainable, groups[g].members, discriminator, artifacts)
  {
    hide Hit;
    var j :| 0 <= j < |retainable| && InGroupMissing(first, retainable, i, discriminator, artifacts, j);
    GroupIs(retainable, groups, g, i);
    GroupHas(retainable, groups, g, j);
    forall h | 0 <= h < g
      ensures j !in groups[h].members
    {
      OneGroup(retainable, groups, g, h, j);
    }
    var k :| 0 <= k < |groups[g].members| && groups[g].members[k] == j;
    assert !Hit(items, retainable[groups[g].members[k]], discriminator);
  }

  lemma GroupIs(retainable: seq<Closure>, groups: seq<Group>, g: nat, i: nat)
    requires GroupsOf(retainable, |retainable|, groups) && g < |groups| && i in groups[g].members
    ensures i < |retainable| && Ids(retainable[i].sources) == groups[g].ids
  {
    hide InSomeGroup;
    var k :| 0 <= k < |groups[g].members| && groups[g].members[k] == i;
  }

  lemma OneGroup(retainable: seq<Closure>, groups: seq<Group>, g: nat, h: nat, i: nat)
    requires GroupsOf(retainable, |retainable|, groups) && h < g < |groups| && i in groups[g].members
    ensures i !in groups[h].members
  {
    GroupIs(retainable, groups, g, i);
    if i in groups[h].members {
      GroupIs(retainable, groups, h, i);
    }
  }

  lemma GroupHas(retainable: seq<Closure>, groups: seq<Group>, g: nat, j: nat)
    requires GroupsOf(retainable, |retainable|, groups) && g < |groups| && j < |retainable|
    requires Ids(retainable[j].sources) == groups[g].ids
    ensures j in groups[g].members
  {
    assert InSomeGroup(groups, j);
    var h :| 0 <= h < |groups| && j in groups[h].members;
    GroupIs(retainable, groups, h, j);
  }

  /** A module of the group of module i that has an artifact but is not in memory. */
  ghost predicate InGroupMissing<A(!new)>(items: Entries<A>, retainable: seq<Closure>, i: nat, discriminator: string,
                                          artifacts: map<nat, A>, j: nat)
    requires i < |retainable| && j < |retainable|
  {
    && Ids(retainable[j].sources) == Ids(retainable[i].sources)
    && retainable[j].moduleId in artifacts && !Hit(items, retainable[j], discriminator)
  }

  ghost predicate GroupMissing<A(!new)>(items: Entries<A>, retainable: seq<Closure>, i: nat, discriminator: string, artifacts: map<nat, A>)
    requires i < |retainable|
  {
    exists j :: 0 <= j < |retainable| && InGroupMissing(items, retainable, i, discriminator, artifacts, j)
  }

  // ----- Memory, group by group -----

  /** Memory after asking for the members from k on that have artifacts, up to the first that is missing. */
  ghost function Asked<A(!new)>(items: Entries<A>, retainable: seq<Closure>, members: seq<nat>, discriminator: string,
                                artifacts: map<nat, A>, k: nat): Entries<A>
    requires k <= |members| && forall l :: 0 <= l < |members| ==> members[l] < |retainable|
    decreases |members| - k
  {
    if k == |members| then items
    else
      var closure := retainable[members[k]];
      if closure.moduleId !in artifacts then Asked(items, retainable, members, discriminator, artifacts, k + 1)
      else if !Hit(items, closure, discriminator) then items
      else Asked(AfterGet(items, KeyOf(closure, discriminator), closure.sources), retainable, members, discriminator, artifacts, k + 1)
  }

  /** Memory after putting the artifacts of the first n members. */
  ghost function PutAll<A(!new)>(items: Entries<A>, capacity: nat, retainable: seq<Closure>, members: seq<nat>, discriminator: string,
                                 artifacts: map<nat, A>, n: nat): Entries<A>
    requires n <= |members| && forall l :: 0 <= l < |members| ==> members[l] < |retainable|
  {
    if n == 0 then items
    else
      var before := PutAll(items, capacity, retainable, members, discriminator, artifacts, n - 1);
      var closure := retainable[members[n - 1]];
      if closure.moduleId in artifacts
      then AfterPut(before, capacity, Item(KeyOf(closure, discriminator), closure.sources, artifacts[closure.moduleId]))
      else before
  }

  ghost function AfterGroup<A(!new)>(items: Entries<A>, capacity: nat, retainable: seq<Closure>, members: seq<nat>, discriminator: string,
                                     artifacts: map<nat, A>): Entries<A>
    requires forall l :: 0 <= l < |members| ==> members[l] < |retainable|
  {
    PutAll(Asked(items, retainable, members, discriminator, artifacts, 0), capacity, retainable, members, discriminator, artifacts, |members|)
  }

  /** Memory at the turn of group n. */
  ghost function MemoryAt<A(!new)>(items: Entries<A>, capacity: nat, retainable: seq<Closure>, groups: seq<Group>, n: nat,
                                   discriminator: string, artifacts: map<nat, A>): Entries<A>
    requires GroupsOf(retainable, |retainable|, groups) && n <= |groups|
  {
    if n == 0 then items
    else AfterGroup(MemoryAt(items, capacity, retainable, groups, n - 1, discriminator, artifacts), capacity, retainable,
                    groups[n - 1].members, discriminator, artifacts)
  }

  lemma MissingNext<A(!new)>(items: Entries<A>, retainable: seq<Closure>, members: seq<nat>,
                             discriminator: string, artifacts: map<nat, A>, k: nat)
    requires k < |members| && forall k :: 0 <= k < |members| ==> members[k] < |retainable|
    requires !MemberMissing(items, retainable, members[..k], discriminator, artifacts)
    ensures MemberMissing(items, retainable, members[..k + 1], discriminator, artifacts)
       <==> retainable[members[k]].moduleId in artifacts && !Hit(items, retainable[members[k]], discriminator)
    ensures MemberMissing(items, retainable, members[..k + 1], discriminator, artifacts) ==>
              MemberMissing(items, retainable, members, discriminator, artifacts)
  {
    assert forall l :: 0 <= l < k ==> members[..k][l] == members[..k + 1][l] == members[l];
    assert members[..k + 1][k] == members[k];
  }

  // ----- Memory, while what disk holds is brought back -----

  ghost predicate AllHit<A(!new)>(items: Entries<A>, retainable: seq<Closure>, members: seq<nat>, discriminator: string)
    requires forall l :: 0 <= l < |members| ==> members[l] < |retainable|
  {
    forall k :: 0 <= k < |members| ==> Hit(items, retainable[members[k]], discriminator)
  }

  /** Memory after asking for the members from k on, up to the first that is missing. */
  ghost function AskedMembers<A(!new)>(items: Entries<A>, retainable: seq<Closure>, members: seq<nat>, discriminator: string,
                                       k: nat): Entries<A>
    requires k <= |members| && forall l :: 0 <= l < |members| ==> members[l] < |retainable|
    decreases |members| - k
  {
    if k == |members| then items
    else
      var closure := retainable[members[k]];
      if !Hit(items, closure, discriminator) then items
      else AskedMembers(AfterGet(items, KeyOf(closure, discriminator), closure.sources), retainable, members, discriminator, k + 1)
  }

  /** Memory after the turn of a group: what disk has of it is put back, unless memory has it all. */
  ghost function AfterRestore<A(!new)>(items: Entries<A>, capacity: nat, disk: map<DiskKey, map<nat, A>>, retainable: seq<Closure>,
                                       members: seq<nat>, discriminator: string, readable: DiskKey -> bool): Entries<A>
    requires |members| > 0 && forall l :: 0 <= l < |members| ==> members[l] < |retainable|
  {
    var asked := AskedMembers(items, retainable, members, discriminator, 0);
    var key := DiskKey(discriminator, Contents(retainable[members[0]].sources));
    if !AllHit(items, retainable, members, discriminator) && key in disk && readable(key)
    then PutAll(asked, capacity, retainable, members, discriminator, disk[key], |members|)
    else asked
  }

  /** Memory at the turn of group n. */
  ghost function RestoredAt<A(!new)>(items: Entries<A>, capacity: nat, disk: map<DiskKey, map<nat, A>>, retainable: seq<Closure>,
                                     groups: seq<Group>, n: nat, discriminator: string, readable: DiskKey -> bool): Entries<A>
    requires GroupsOf(retainable, |retainable|, groups) && n <= |groups|
  {
    if n == 0 then items
    else AfterRestore(RestoredAt(items, capacity, disk, retainable, groups, n - 1, discriminator, readable), capacity, disk,
                      retainable, groups[n - 1].members, discriminator, readable)
  }

  /** Memory after asking for the first n modules, one by one. */
  ghost function AskedEach<A(!new)>(items: Entries<A>, retainable: seq<Closure>, discriminator: string, n: nat): Entries<A>
    requires n <= |retainable|
  {
    if n == 0 then items
    else AfterGet(AskedEach(items, retainable, discriminator, n - 1), KeyOf(retainable[n - 1], discriminator), retainable[n - 1].sources)
  }

  /** The keys of the modules of a list. */
  ghost function ModuleKeys(retainable: seq<Closure>, discriminator: string): set<Key> {
    set i | 0 <= i < |retainable| :: KeyOf(retainable[i], discriminator)
  }

  lemma {:induction false} ModuleKeysCount(retainable: seq<Closure>, discriminator: string)
    requires OneGraph(retainable)
    ensures |ModuleKeys(retainable, discriminator)| == |retainable|
  {
    if retainable != [] {
      var n := |retainable| - 1;
      var rest := retainable[..n];
      forall i, j | 0 <= i < |rest| && 0 <= j < |rest|
        ensures OneObjectPerId(rest[i].sources, rest[j].sources)
      {
        assert rest[i] == retainable[i] && rest[j] == retainable[j];
      }
      ModuleKeysCount(rest, discriminator);
      var last := KeyOf(retainable[n], discriminator);
      assert ModuleKeys(retainable, discriminator) == ModuleKeys(rest, discriminator) + {last};
      assert last !in ModuleKeys(rest, discriminator);
    }
  }

  lemma StateFaithful<A(!new)>(items: Entries<A>, capacity: nat, compute: Compute<A>, retainable: seq<Closure>,
                               discriminator: string, tracked: bool, held: set<Entry<A>>)
    requires BatchState(items, capacity, compute, retainable, discriminator, tracked, held)
    ensures FaithfulMemory(items, compute)
  {
  }

  ghost predicate Bounded<A(!new)>(items: Entries<A>, capacity: nat) {
    DistinctKeys(items) && |items| <= capacity
  }

  lemma MissKeeps<A(!new)>(items: Entries<A>, closure: Closure, discriminator: string)
    requires !Hit(items, closure, discriminator)
    ensures AfterGet(items, KeyOf(closure, discriminator), closure.sources) == items
  {
  }

  lemma GetKeepsKeys<A(!new)>(items: Entries<A>, capacity: nat, closure: Closure, discriminator: string)
    requires Bounded(items, capacity)
    ensures var after := AfterGet(items, KeyOf(closure, discriminator), closure.sources);
            Bounded(after, capacity) && SameHits(items, after, discriminator) && Keys(after) <= Keys(items)
  {
    var key := KeyOf(closure, discriminator);
    GetKeepsValid(items, capacity, key, closure.sources);
    forall c: Closure
      ensures Hit(AfterGet(items, key, closure.sources), c, discriminator) <==> Hit(items, c, discriminator)
    {
      GetKeepsAnswers(items, key, closure.sources, KeyOf(c, discriminator), c.sources);
    }
    hide KeyOf, Hit, GetResult, DistinctKeys;
    LookupFinds(items, key);
    KeysWithout(items, key);
    if Answers(Lookup(items, key), closure.sources) {
      KeysAppend(Without(items, key), Lookup(items, key).value);
      var i :| 0 <= i < |items| && items[i] == Lookup(items, key).value;
      assert items[i].key in Keys(items);
    }
  }

  lemma {:induction false} AskedMembersKeep<A(!new)>(items: Entries<A>, capacity: nat, retainable: seq<Closure>, members: seq<nat>,
                                                     discriminator: string, k: nat)
    requires k <= |members| && forall l :: 0 <= l < |members| ==> members[l] < |retainable|
    requires Bounded(items, capacity)
    ensures var after := AskedMembers(items, retainable, members, discriminator, k);
            Bounded(after, capacity) && SameHits(items, after, discriminator) && Keys(after) <= Keys(items)
    decreases |members| - k
  {
    hide Bounded, Hit, KeyOf, Keys;
    if k < |members| && Hit(items, retainable[members[k]], discriminator) {
      var closure := retainable[members[k]];
      GetKeepsKeys(items, capacity, closure, discriminator);
      AskedMembersKeep(AfterGet(items, KeyOf(closure, discriminator), closure.sources), capacity, retainable, members, discriminator, k + 1);
    }
  }

  /** A put into a store with room evicts nothing, and turns no answer for its own sources into none. */
  lemma PutWithRoom<A(!new)>(items: Entries<A>, capacity: nat, item: Entry<A>, keys: set<Key>, discriminator: string)
    requires Bounded(items, capacity) && Keys(items) <= keys && item.key in keys && |keys| <= capacity
    ensures Keys(AfterPut(items, capacity, item)) <= keys
    ensures forall c: Closure :: Hit(items, c, discriminator) && (KeyOf(c, discriminator) == item.key ==> c.sources == item.sources) ==>
                                   Hit(AfterPut(items, capacity, item), c, discriminator)
  {
    hide KeyOf;
    var full := Without(items, item.key) + [item];
    PutDistinct(items, item);
    KeysWithout(items, item.key);
    KeysAppend(Without(items, item.key), item);
    DistinctCount(full, keys);
    assert AfterPut(items, capacity, item) == full;
    WithoutMembers(items, item.key);
    forall c: Closure | Hit(items, c, discriminator) && (KeyOf(c, discriminator) == item.key ==> c.sources == item.sources)
      ensures Hit(full, c, discriminator)
    {
      LookupFinds(items, KeyOf(c, discriminator));
      var found := Lookup(items, KeyOf(c, discriminator)).value;
      if KeyOf(c, discriminator) == item.key {
        LookupIs(full, item);
      } else {
        InAppend(Without(items, item.key), item, found);
        LookupIs(full, found);
      }
    }
  }

  lemma PutKeepsBounded<A(!new)>(items: Entries<A>, capacity: nat, item: Entry<A>)
    requires Bounded(items, capacity)
    ensures Bounded(AfterPut(items, capacity, item), capacity)
  {
    PutDistinct(items, item);
  }

  /** What putting a payload back does to the answers for a list's modules. */
  ghost predicate PutBack<A(!new)>(items: Entries<A>, after: Entries<A>, capacity: nat, retainable: seq<Closure>, members: seq<nat>,
                                   discriminator: string, payload: map<nat, A>) {
    && Bounded(after, capacity)
    && (forall i :: 0 <= i < |retainable| && Hit(after, retainable[i], discriminator) ==>
                      Hit(items, retainable[i], discriminator) || (i in members && retainable[i].moduleId in payload))
    && (|Keys(items) + ModuleKeys(retainable, discriminator)| <= capacity ==>
          && Keys(after) <= Keys(items) + ModuleKeys(retainable, discriminator)
          && forall i :: 0 <= i < |retainable| && Hit(items, retainable[i], discriminator) ==> Hit(after, retainable[i], discriminator))
  }

  lemma {:induction false} PutAllBack<A(!new)>(items: Entries<A>, capacity: nat, retainable: seq<Closure>, members: seq<nat>,
                                               discriminator: string, payload: map<nat, A>, n: nat)
    requires OneGraph(retainable) && Bounded(items, capacity)
    requires n <= |members| && forall l :: 0 <= l < |members| ==> members[l] < |retainable|
    ensures PutBack(items, PutAll(items, capacity, retainable, members, discriminator, payload, n), capacity, retainable, members, discriminator, payload)
  {
    hide PutBack;
    if n == 0 {
      NothingPutBack(items, capacity, retainable, members, discriminator, payload);
    } else {
      PutAllBack(items, capacity, retainable, members, discriminator, payload, n - 1);
      if retainable[members[n - 1]].moduleId in payload {
        OnePutBack(items, PutAll(items, capacity, retainable, members, discriminator, payload, n - 1), capacity, retainable, members,
                   discriminator, payload, n - 1);
      }
    }
  }

  lemma NothingPutBack<A(!new)>(items: Entries<A>, capacity: nat, retainable: seq<Closure>, members: seq<nat>,
                                discriminator: string, payload: map<nat, A>)
    requires Bounded(items, capacity)
    ensures PutBack(items, items, capacity, retainable, members, discriminator, payload)
  {
    hide Hit;
  }

  lemma OnePutBack<A(!new)>(items: Entries<A>, before: Entries<A>, capacity: nat, retainable: seq<Closure>, members: seq<nat>,
                            discriminator: string, payload: map<nat, A>, k: nat)
    requires OneGraph(retainable) && k < |members| && members[k] < |retainable| && retainable[members[k]].moduleId in payload
    requires PutBack(items, before, capacity, retainable, members, discriminator, payload)
    ensures var closure := retainable[members[k]];
            PutBack(items, AfterPut(before, capacity, Item(KeyOf(closure, discriminator), closure.sources, payload[closure.moduleId])),
                    capacity, retainable, members, discriminator, payload)
  {
    hide Hit, GetResult, AfterPut, Keys, DistinctKeys;
    var closure := retainable[members[k]];
    var item := Item(KeyOf(closure, discriminator), closure.sources, payload[closure.moduleId]);
    PutKeepsBounded(before, capacity, item);
    PutAddsOnlyItsKey(before, capacity, item, discriminator);
    if |Keys(items) + ModuleKeys(retainable, discriminator)| <= capacity {
      PutWithRoom(before, capacity, item, Keys(items) + ModuleKeys(retainable, discriminator), discriminator);
    }
  }

  /** What bringing back what disk holds does to the answers for a list's modules. */
  ghost predicate BroughtBack<A(!new)>(items: Entries<A>, after: Entries<A>, capacity: nat, disk: map<DiskKey, map<nat, A>>,
                                       retainable: seq<Closure>, discriminator: string, readable: DiskKey -> bool) {
    && Bounded(after, capacity)
    && (forall i :: 0 <= i < |retainable| && Hit(after, retainable[i], discriminator) ==>
                      Hit(items, retainable[i], discriminator) || Saved(disk, retainable[i], discriminator, readable))
    && (|Keys(items) + ModuleKeys(retainable, discriminator)| <= capacity ==>
          && Keys(after) <= Keys(items) + ModuleKeys(retainable, discriminator)
          && forall i :: 0 <= i < |retainable| && Hit(items, retainable[i], discriminator) ==> Hit(after, retainable[i], discriminator))
    && ((forall i :: 0 <= i < |retainable| ==> Hit(items, retainable[i], discriminator)) ==>
          forall i :: 0 <= i < |retainable| ==> Hit(after, retainable[i], discriminator))
  }

  lemma SmallerKeys(keys: set<Key>, more: set<Key>)
    requires keys <= more
    ensures |keys| <= |more|
  {
    assert more == keys + (more - keys);
  }

  lemma SameHitsBroughtBack<A(!new)>(items: Entries<A>, before: Entries<A>, after: Entries<A>, capacity: nat,
                                     disk: map<DiskKey, map<nat, A>>,
                                     retainable: seq<Closure>, discriminator: string, readable: DiskKey -> bool)
    requires BroughtBack(items, before, capacity, disk, retainable, discriminator, readable)
    requires Bounded(after, capacity) && SameHits(before, after, discriminator) && Keys(after) <= Keys(before)
    ensures BroughtBack(items, after, capacity, disk, retainable, discriminator, readable)
  {
    hide Hit, Keys, Bounded, Saved;
  }

  lemma PutBackBroughtBack<A(!new)>(items: Entries<A>, before: Entries<A>, after: Entries<A>, capacity: nat,
                                    disk: map<DiskKey, map<nat, A>>, retainable: seq<Closure>, members: seq<nat>,
                                    discriminator: string, readable: DiskKey -> bool, key: DiskKey)
    requires BroughtBack(items, before, capacity, disk, retainable, discriminator, readable)
    requires key in disk && readable(key) && PutBack(before, after, capacity, retainable, members, discriminator, disk[key])
    requires forall i :: i in members ==> i < |retainable| && DiskKey(discriminator, Contents(retainable[i].sources)) == key
    requires exists i :: 0 <= i < |retainable| && !Hit(before, retainable[i], discriminator)
    ensures BroughtBack(items, after, capacity, disk, retainable, discriminator, readable)
  {
    hide Hit, Keys, Bounded, ModuleKeys;
    var room, now := Keys(items) + ModuleKeys(retainable, discriminator), Keys(before) + ModuleKeys(retainable, discriminator);
    if |room| <= capacity {
      SmallerKeys(now, room);
    }
  }

  lemma GroupBroughtBack<A(!new)>(items: Entries<A>, before: Entries<A>, capacity: nat, disk: map<DiskKey, map<nat, A>>,
                                  retainable: seq<Closure>, members: seq<nat>, discriminator: string, readable: DiskKey -> bool)
    requires OneGraph(retainable) && |members| > 0 && forall k :: 0 <= k < |members| ==> members[k] < |retainable|
    requires forall k :: 0 <= k < |members| ==> Ids(retainable[members[k]].sources) == Ids(retainable[members[0]].sources)
    requires BroughtBack(items, before, capacity, disk, retainable, discriminator, readable)
    ensures BroughtBack(items, AfterRestore(before, capacity, disk, retainable, members, discriminator, readable), capacity, disk,
                        retainable, discriminator, readable)
  {
    hide OneGraph, Hit, AskedMembers, PutAll, PutBack, Keys, Bounded, Ids;
    assert Bounded(before, capacity);
    AskedMembersKeep(before, capacity, retainable, members, discriminator, 0);
    var asked := AskedMembers(before, retainable, members, discriminator, 0);
    SameHitsBroughtBack(items, before, asked, capacity, disk, retainable, discriminator, readable);
    var key := DiskKey(discriminator, Contents(retainable[members[0]].sources));
    if !AllHit(before, retainable, members, discriminator) && key in disk && readable(key) {
      GroupContents(retainable, members);
      PutAllBack(asked, capacity, retainable, members, discriminator, disk[key], |members|);
      PutBackBroughtBack(items, asked, PutAll(asked, capacity, retainable, members, discriminator, disk[key], |members|), capacity, disk,
                         retainable, members, discriminator, readable, key);
    }
  }

  /** Bringing back what disk holds adds no answer that disk has not; with room it takes none away, nor does it
      when memory has all. */
  lemma {:induction false} RestoringAnswers<A(!new)>(items: Entries<A>, capacity: nat, disk: map<DiskKey, map<nat, A>>,
                                                     retainable: seq<Closure>, groups: seq<Group>, n: nat, discriminator: string,
                                                     readable: DiskKey -> bool)
    requires OneGraph(retainable) && GroupsOf(retainable, |retainable|, groups) && n <= |groups| && Bounded(items, capacity)
    ensures BroughtBack(items, RestoredAt(items, capacity, disk, retainable, groups, n, discriminator, readable), capacity, disk,
                        retainable, discriminator, readable)
  {
    hide OneGraph, Hit, AfterRestore, BroughtBack, InSomeGroup, Ids;
    if n == 0 {
      NothingBroughtBack(items, capacity, disk, retainable, discriminator, readable);
    } else {
      RestoringAnswers(items, capacity, disk, retainable, groups, n - 1, discriminator, readable);
      GroupBroughtBack(items, RestoredAt(items, capacity, disk, retainable, groups, n - 1, discriminator, readable), capacity, disk,
                       retainable, groups[n - 1].members, discriminator, readable);
    }
  }

  lemma NothingBroughtBack<A(!new)>(items: Entries<A>, capacity: nat, disk: map<DiskKey, map<nat, A>>, retainable: seq<Closure>,
                                    discriminator: string, readable: DiskKey -> bool)
    requires Bounded(items, capacity)
    ensures BroughtBack(items, items, capacity, disk, retainable, discriminator, readable)
  {
    hide Hit, Saved, ModuleKeys;
  }

  // ----- Laws of a retaining compilation followed by a serving one -----

  /** A compilation that retains an artifact for every module serves the next one all of them, as long as
      they fit the store. */
  method RetainThenServe<A(!new)>(cache: ArtifactCache<A>, retainable: seq<Closure>, discriminator: string, artifacts: map<nat, A>,
                                  writable: DiskKey -> bool, readable: DiskKey -> bool)
    returns (served: map<nat, A>)
    requires cache.Valid() && OneGraph(retainable) && cache.Computed(retainable, discriminator, artifacts)
    requires |retainable| <= cache.store.capacity && forall i :: 0 <= i < |retainable| ==> retainable[i].moduleId in artifacts
    modifies cache`disk, cache.store
    ensures forall i :: 0 <= i < |retainable| ==>
                          retainable[i].moduleId in served && served[retainable[i].moduleId] == artifacts[retainable[i].moduleId]
  {
    ghost var groups, held := cache.Retain(retainable, discriminator, artifacts, writable);
    assert forall i :: 0 <= i < |retainable| ==> Hit(cache.store.items, retainable[i], discriminator);
    ghost var turns, restored;
    served, turns, restored := cache.Served(retainable, discriminator, readable);
  }

  /** The retained entries that an edited list of the same modules still expects are kept for it. */
  lemma KeptForEdited<A(!new)>(items: Entries<A>, capacity: nat, compute: Compute<A>, retainable: seq<Closure>, edited: seq<Closure>,
                               discriminator: string, held: set<Entry<A>>, kept: set<Entry<A>>)
    requires BatchState(items, capacity, compute, retainable, discriminator, true, held)
    requires |edited| == |retainable| && forall i :: 0 <= i < |retainable| ==> edited[i].moduleId == retainable[i].moduleId
    requires kept == set i | 0 <= i < |edited| && Expected(edited[i], discriminator, compute) in held :: Expected(edited[i], discriminator, compute)
    ensures BatchState(items, capacity, compute, edited, discriminator, true, kept)
  {
    hide Expected, FaithfulMemory, DistinctKeys;
    SameBatch(retainable, edited, discriminator);
    assert HeldExpected(edited, discriminator, compute, kept);
    var older, recent :| Split(items, older, recent, Batch(retainable, discriminator), held);
    assert Split(items, older, recent, Batch(edited, discriminator), kept);
  }

  lemma {:induction false} SameBatch(retainable: seq<Closure>, edited: seq<Closure>, discriminator: string)
    requires |edited| == |retainable| && forall i :: 0 <= i < |retainable| ==> edited[i].moduleId == retainable[i].moduleId
    ensures Batch(edited, discriminator) == Batch(retainable, discriminator)
  {
    if retainable != [] {
      SameBatch(retainable[1..], edited[1..], discriminator);
    }
  }

  /** After an edit the next compilation is still served every module none of whose sources changed, whatever else
      did and whatever disk holds, as long as the modules fit the store: an edit loses nothing outside the
      closures that hold it. */
  method RetainThenEdit<A(!new)>(cache: ArtifactCache<A>, retainable: seq<Closure>, edited: seq<Closure>, discriminator: string,
                                 artifacts: map<nat, A>, writable: DiskKey -> bool, readable: DiskKey -> bool)
    returns (served: map<nat, A>)
    requires cache.Valid() && OneGraph(retainable) && OneGraph(edited) && cache.Computed(retainable, discriminator, artifacts)
    requires |edited| == |retainable| <= cache.store.capacity
    requires forall i :: 0 <= i < |retainable| ==> edited[i].moduleId == retainable[i].moduleId
    modifies cache`disk, cache.store
    ensures forall i :: 0 <= i < |retainable| && retainable[i].moduleId in artifacts && edited[i].sources == retainable[i].sources ==>
                          retainable[i].moduleId in served && served[retainable[i].moduleId] == artifacts[retainable[i].moduleId]
  {
    hide MemoryAt, GroupsOf, GetResult, OneGraph, FaithfulMemory, BatchState, Hit, AskedEach;
    ghost var groups, held := cache.Retain(retainable, discriminator, artifacts, writable);
    ghost var kept := set i | 0 <= i < |edited| && Expected(edited[i], discriminator, cache.compute) in held
                        :: Expected(edited[i], discriminator, cache.compute);
    KeptForEdited(cache.store.items, cache.store.capacity, cache.compute, retainable, edited, discriminator, held, kept);
    ghost var turns, restored;
    served, turns, restored := cache.ServeKeeping(edited, discriminator, readable, kept);
  }

  const FIRST := Closure(0, [Loaded(0, 0, "")])
  const SECOND := Closure(1, [Loaded(1, 1, "")])
  const OTHER := Closure(2, [Loaded(2, 2, "")])

  /** Bringing back one group can cost another, even one memory has all of: with a store just large enough for the
      list, what disk holds of the first module's group evicts the second module's entry before its turn. */
  lemma RestoringCanEvict<A(!new)>(discriminator: string, x: A, y: A, z: A, readable: DiskKey -> bool)
    requires readable(DiskKey(discriminator, Contents(FIRST.sources)))
    ensures var retainable, groups := [FIRST, SECOND], [Group([0], [0]), Group([1], [1])];
            var items := [Item(KeyOf(SECOND, discriminator), SECOND.sources, y), Item(KeyOf(OTHER, discriminator), OTHER.sources, z)];
            var disk := map[DiskKey(discriminator, Contents(FIRST.sources)) := map[0 := x]];
            && OneGraph(retainable) && GroupsOf(retainable, 2, groups) && Bounded(items, 2)
            && Hit(items, SECOND, discriminator)
            && !Hit(RestoredAt(items, 2, disk, retainable, groups, 2, discriminator, readable), SECOND, discriminator)
  {
    hide Hit, AfterRestore, Keys;
    var retainable, groups := [FIRST, SECOND], [Group([0], [0]), Group([1], [1])];
    TwoGroups(retainable, groups);
    var b, c := Item(KeyOf(SECOND, discriminator), SECOND.sources, y), Item(KeyOf(OTHER, discriminator), OTHER.sources, z);
    var disk := map[DiskKey(discriminator, Contents(FIRST.sources)) := map[0 := x]];
    EvictSecond(discriminator, disk, retainable, x, b, c, readable);
    assert RestoredAt([b, c], 2, disk, retainable, groups, 0, discriminator, readable) == [b, c];
    assert RestoredAt([b, c], 2, disk, retainable, groups, 1, discriminator, readable)
        == AfterRestore([b, c], 2, disk, retainable, [0], discriminator, readable);
  }

  lemma TwoGroups(retainable: seq<Closure>, groups: seq<Group>)
    requires retainable == [FIRST, SECOND] && groups == [Group([0], [0]), Group([1], [1])]
    ensures GroupsOf(retainable, 2, groups)
  {
    assert Ids(FIRST.sources) == [0] && Ids(SECOND.sources) == [1];
    IsInGroup(groups, 0, 0);
    IsInGroup(groups, 1, 1);
  }

  lemma EvictSecond<A(!new)>(discriminator: string, disk: map<DiskKey, map<nat, A>>, retainable: seq<Closure>,
                             x: A, b: Entry<A>, c: Entry<A>, readable: DiskKey -> bool)
    requires disk == map[DiskKey(discriminator, Contents(FIRST.sources)) := map[0 := x]] && retainable == [FIRST, SECOND]
    requires b.key == KeyOf(SECOND, discriminator) && b.sources == SECOND.sources && c.key == KeyOf(OTHER, discriminator)
    requires readable(DiskKey(discriminator, Contents(FIRST.sources)))
    ensures Hit([b, c], SECOND, discriminator)
    ensures var after := AfterRestore([b, c], 2, disk, retainable, [0], discriminator, readable);
            !Hit(AfterRestore(after, 2, disk, retainable, [1], discriminator, readable), SECOND, discriminator)
  {
    hide Lookup, Without;
    var a := Item(KeyOf(FIRST, discriminator), FIRST.sources, x);
    LookupIs([b, c], b);
    LookupFinds([b, c], a.key);
    WithoutAbsent([b, c], a.key);
    LookupFinds([c, a], b.key);
    assert ([b, c] + [a])[1..] == [c, a];
    assert AfterPut([b, c], 2, a) == [c, a];
    assert PutAll([b, c], 2, retainable, [0], discriminator, map[0 := x], 0) == [b, c];
    assert AfterRestore([b, c], 2, disk, retainable, [0], discriminator, readable) == [c, a];
    assert Contents(SECOND.sources)[0] != Contents(FIRST.sources)[0];
  }

  /** Another process, with modules loaded afresh from the same sources, is served every module with an artifact
      whose group can be saved and had a member with an artifact that was not in memory. */
  method RetainThenRestart<A(!new)>(cache: ArtifactCache<A>, retainable: seq<Closure>, reloaded: seq<Closure>,
                                    discriminator: string,
                                    artifacts: map<nat, A>, storable: DiskKey -> bool)
    returns (served: map<nat, A>)
    requires cache.Valid() && cache.persist && OneGraph(retainable) && OneGraph(reloaded) && cache.Computed(retainable, discriminator, artifacts)
    requires |reloaded| == |retainable| <= cache.store.capacity
    requires forall i :: 0 <= i < |retainable| ==>
                           reloaded[i].moduleId == retainable[i].moduleId && Contents(reloaded[i].sources) == Contents(retainable[i].sources)
    modifies cache`disk, cache.store
    ensures forall i :: 0 <= i < |retainable| && retainable[i].moduleId in artifacts
                        && storable(DiskKey(discriminator, Contents(retainable[i].sources)))
                        && GroupMissing(old(cache.store.items), retainable, i, discriminator, artifacts) ==>
                          retainable[i].moduleId in served && served[retainable[i].moduleId] == artifacts[retainable[i].moduleId]
  {
    hide MemoryAt, GroupsOf, GroupMissing, GetResult, OneGraph, FaithfulMemory;
    ghost var first := cache.store.items;
    ghost var groups, held := cache.Retain(retainable, discriminator, artifacts, storable);
    ghost var compute := cache.compute;
    var restarted := new ArtifactCache(cache.store.capacity, true, cache.disk, compute);
    ghost var turns, restored;
    served, turns, restored := restarted.Served(reloaded, discriminator, storable);
    forall i | 0 <= i < |retainable| && retainable[i].moduleId in artifacts
               && storable(DiskKey(discriminator, Contents(retainable[i].sources)))
               && GroupMissing(first, retainable, i, discriminator, artifacts)
      ensures retainable[i].moduleId in served && served[retainable[i].moduleId] == artifacts[retainable[i].moduleId]
    {
      assert cache.OnDisk(retainable[i], discriminator, storable);
      assert restarted.OnDisk(reloaded[i], discriminator, storable);
      assert reloaded[i].moduleId in served;
    }
  }

  /** What is compared, and computed from, is every module's identity and text, and nothing of which object it is. */
  lemma ContentsIff(s: Sources, t: Sources)
    ensures Contents(s) == Contents(t) <==>
            |s| == |t| && forall a :: 0 <= a < |s| ==> s[a].moduleId == t[a].moduleId && s[a].content == t[a].content
  {
    if Contents(s) == Contents(t) {
      forall a | 0 <= a < |s|
        ensures s[a].moduleId == t[a].moduleId && s[a].content == t[a].content
      {
        assert Contents(s)[a] == Contents(t)[a];
      }
    }
  }

  lemma ContentsGiveIds(s: Sources, t: Sources)
    requires Contents(s) == Contents(t)
    ensures Ids(s) == Ids(t)
  {
    forall a | 0 <= a < |s|
      ensures Ids(s)[a] == Ids(t)[a]
    {
      assert Contents(s)[a] == Contents(t)[a];
    }
  }

  /** Whether some member of a group has an artifact that is not in memory. */
  ghost predicate MemberMissing<A(!new)>(items: Entries<A>, retainable: seq<Closure>, members: seq<nat>,
                                         discriminator: string, artifacts: map<nat, A>)
    requires forall k :: 0 <= k < |members| ==> members[k] < |retainable|
  {
    exists k :: 0 <= k < |members| && retainable[members[k]].moduleId in artifacts && !Hit(items, retainable[members[k]], discriminator)
  }

  ghost predicate AmongGroups(groups: seq<Group>, n: nat, i: nat)
    requires n <= |groups|
  {
    exists g :: 0 <= g < n && i in groups[g].members
  }

  ghost predicate OnlyMembersAdded<A(!new)>(items: Entries<A>, items': Entries<A>,
                                            retainable: seq<Closure>, members: seq<nat>, discriminator: string)
    requires forall k :: 0 <= k < |members| ==> members[k] < |retainable|
  {
    forall c: Closure :: Hit(items', c, discriminator) && !Hit(items, c, discriminator) ==>
                           exists k :: 0 <= k < |members| && retainable[members[k]].moduleId == c.moduleId
  }

  lemma PutAddsOnlyItsKey<A(!new)>(items: Entries<A>, capacity: nat, item: Entry<A>, discriminator: string)
    requires DistinctKeys(items)
    ensures forall c: Closure :: Hit(AfterPut(items, capacity, item), c, discriminator) && !Hit(items, c, discriminator) ==>
                                   KeyOf(c, discriminator) == item.key
  {
    var after := AfterPut(items, capacity, item);
    forall c: Closure | Hit(after, c, discriminator) && KeyOf(c, discriminator) != item.key
      ensures Hit(items, c, discriminator)
    {
      LookupFinds(after, KeyOf(c, discriminator));
      var found := Lookup(after, KeyOf(c, discriminator)).value;
      WithoutMembers(items, item.key);
      assert found in Without(items, item.key) + [item];
      InAppend(Without(items, item.key), item, found);
      LookupIs(items, found);
    }
  }

  lemma EmptyBatch<A(!new)>(items: Entries<A>, capacity: nat, compute: Compute<A>, retainable: seq<Closure>,
                            discriminator: string, tracked: bool)
    requires DistinctKeys(items) && |items| <= capacity && FaithfulMemory(items, compute) && (tracked ==> |retainable| <= capacity)
    ensures BatchState(items, capacity, compute, retainable, discriminator, tracked, {})
  {
    assert items == items + [];
    assert Split(items, items, [], Batch(retainable, discriminator), {});
  }

  /** A group's members read the same source contents. */
  lemma GroupContents(retainable: seq<Closure>, members: seq<nat>)
    requires OneGraph(retainable) && |members| > 0
    requires forall k :: 0 <= k < |members| ==> members[k] < |retainable|
    requires forall k :: 0 <= k < |members| ==> Ids(retainable[members[k]].sources) == Ids(retainable[members[0]].sources)
    ensures forall k :: 0 <= k < |members| ==> retainable[members[k]].sources == retainable[members[0]].sources
  {
    forall k | 0 <= k < |members|
      ensures retainable[members[k]].sources == retainable[members[0]].sources
    {
      SameIdsSameSources(retainable, members[k], members[0]);
    }
  }
}
