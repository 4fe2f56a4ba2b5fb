/** Recursion planning: the graph of concrete instantiations a type reaches, which of them are hoisted,
    and the key each hoisted one gets. */
module SchemaPlan {
  import opened SchemaTypes
  import opened Graphs

  // ----- References -----

  function Concat<T>(ss: seq<seq<T>>): seq<T> {
    if ss == [] then [] else ss[0] + Concat(ss[1..])
  }

  lemma {:induction false} InConcat<T>(ss: seq<seq<T>>, x: T)
    ensures x in Concat(ss) <==> exists i :: 0 <= i < |ss| && x in ss[i]
  {
    if ss != [] {
      InConcat(ss[1..], x);
      if x in Concat(ss) && x !in ss[0] {
        var i :| 0 <= i < |ss[1..]| && x in ss[1..][i];
        assert x in ss[i + 1];
      }
      if exists i :: 0 <= i < |ss| && x in ss[i] {
        var i :| 0 <= i < |ss| && x in ss[i];
        if i > 0 {
          assert x in ss[1..][i - 1];
        }
      }
    }
  }

  /** The canonical nominals occurring in t where they can affect its schema, with repeats. */
  function References(table: Table, t: Type): seq<Type> {
    match t
    case Array(elem) => References(table, elem)
    case Dict(key, value) => References(table, key) + References(table, value)
    case Nominal(decl, args) =>
      [Canonical(table, t)]
      + Concat(seq(|args|, i requires 0 <= i < |args| => if Relevant(table, decl, i) then References(table, args[i]) else []))
    case _ => []
  }

  /** The instantiations named in a nominal's own fields, with repeats. */
  function DirectReferences(table: Table, handle: Type): seq<Type>
    requires IsHandle(table, handle)
  {
    var fields := FieldTypes(table, handle.decl, handle.args);
    Concat(seq(|fields|, i requires 0 <= i < |fields| => References(table, fields[i])))
  }

  predicate IsHandle(table: Table, t: Type) {
    t.Nominal? && t.decl in table && |t.args| == |table[t.decl].params|
  }

  predicate Handles(table: Table, order: seq<Type>) {
    forall i :: 0 <= i < |order| ==> IsHandle(table, order[i])
  }

  function Elements<T>(s: seq<T>): set<T> {
    set x | x in s
  }

  lemma {:induction false} ReferencesOfCanonical(table: Table, t: Type)
    ensures References(table, Canonical(table, t)) == References(table, t)
  {
    match t {
      case Array(elem) => ReferencesOfCanonical(table, elem);
      case Dict(key, value) =>
        ReferencesOfCanonical(table, key);
        ReferencesOfCanonical(table, value);
      case Nominal(decl, args) =>
        CanonicalIdempotent(table, t);
        var canonical := Canonical(table, t).args;
        forall i | 0 <= i < |args| && Relevant(table, decl, i)
          ensures References(table, canonical[i]) == References(table, args[i])
        {
          ReferencesOfCanonical(table, args[i]);
        }
        assert seq(|args|, i requires 0 <= i < |args| => if Relevant(table, decl, i) then References(table, args[i]) else [])
            == seq(|args|, i requires 0 <= i < |args| => if Relevant(table, decl, i) then References(table, canonical[i]) else []);
      case _ =>
    }
  }

  // ----- The instantiation graph -----

  /** A universe of canonical instantiations closed under direct references: what a finite schema closure is. */
  ghost predicate Universe(table: Table, universe: set<Type>) {
    forall handle :: handle in universe ==>
                       && IsHandle(table, handle) && Canonical(table, handle) == handle
                       && Elements(DirectReferences(table, handle)) <= universe
  }

  ghost function ReferenceGraph(table: Table, universe: set<Type>): (g: Graph<Type>)
    requires Universe(table, universe)
    ensures Closed(g) && g.Keys == universe
  {
    map handle | handle in universe :: Elements(DirectReferences(table, handle))
  }

  function Tally(table: Table, order: seq<Type>): multiset<Type>
    requires Handles(table, order)
  {
    if order == [] then multiset{}
    else Tally(table, order[..|order| - 1]) + multiset(DirectReferences(table, order[|order| - 1]))
  }

  /** What the breadth-first expansion returns: exactly the reachable instantiations, each once, their
      edges, and how often each is referenced by the roots and by all of them. */
  ghost predicate IsExpansion(table: Table, universe: set<Type>, rootReferences: seq<Type>,
                              order: seq<Type>, adjacency: Graph<Type>, occurrences: multiset<Type>)
    requires Universe(table, universe)
  {
    && Distinct(order)
    && Elements(order) == adjacency.Keys == ReachSet(ReferenceGraph(table, universe), Elements(rootReferences))
    && adjacency.Keys <= universe
    && (forall handle :: handle in adjacency ==> adjacency[handle] == Elements(DirectReferences(table, handle)))
    && Handles(table, order)
    && occurrences == multiset(rootReferences) + Tally(table, order)
  }

  /** The roots' references, in root order. */
  function RootReferences(table: Table, roots: seq<Type>): seq<Type> {
    Concat(seq(|roots|, i requires 0 <= i < |roots| => References(table, roots[i])))
  }

  /** What has been recorded of the instantiations seen so far. */
  ghost predicate Recorded(table: Table, universe: set<Type>, starts: seq<Type>, seen: set<Type>,
                           order: seq<Type>, adjacency: Graph<Type>, occurrences: multiset<Type>) {
    && seen <= universe
    && Elements(order) == seen == adjacency.Keys && Distinct(order)
    && (forall handle :: handle in seen ==> IsHandle(table, handle) && adjacency[handle] == Elements(DirectReferences(table, handle)))
    && Handles(table, order)
    && occurrences == multiset(starts) + Tally(table, order)
  }

  lemma HandlesNext(table: Table, order: seq<Type>, handle: Type)
    requires Handles(table, order) && IsHandle(table, handle)
    ensures Handles(table, order + [handle])
  {
    hide IsHandle;
  }

  lemma TallyNext(table: Table, order: seq<Type>, handle: Type)
    requires Handles(table, order) && IsHandle(table, handle)
    ensures Handles(table, order + [handle])
    ensures Tally(table, order + [handle]) == Tally(table, order) + multiset(DirectReferences(table, handle))
  {
    HandlesNext(table, order, handle);
    hide DirectReferences, Handles;
    assert (order + [handle])[..|order|] == order;
  }

  lemma DistinctNext<T>(s: seq<T>, x: T)
    requires Distinct(s) && x !in s
    ensures Distinct(s + [x])
  {
  }

  lemma RecordOne(table: Table, universe: set<Type>, starts: seq<Type>, seen: set<Type>,
                  order: seq<Type>, adjacency: Graph<Type>, occurrences: multiset<Type>, handle: Type)
    requires Recorded(table, universe, starts, seen, order, adjacency, occurrences)
    requires handle in universe && handle !in seen && IsHandle(table, handle)
    ensures var references := DirectReferences(table, handle);
            Recorded(table, universe, starts, seen + {handle}, order + [handle],
                     adjacency[handle := Elements(references)], occurrences + multiset(references))
  {
    assert handle !in order by {
      assert handle !in Elements(order);
    }
    ElementsAdd(order, handle);
    HandlesNext(table, order, handle);
    TallyNext(table, order, handle);
    DistinctNext(order, handle);
    hide Tally, DirectReferences, Elements, Distinct, Handles, IsHandle;
  }

  lemma SkipSeen(table: Table, universe: set<Type>, starts: set<Type>, seen: set<Type>, queue: seq<Type>)
    requires Universe(table, universe) && queue != [] && queue[0] in seen
    requires Expanding(ReferenceGraph(table, universe), starts, seen, Elements(queue))
    ensures Expanding(ReferenceGraph(table, universe), starts, seen, Elements(queue[1..]))
  {
    ElementsTail(queue);
    ExpandingSkip(ReferenceGraph(table, universe), starts, seen, Elements(queue), queue[0], Elements(queue[1..]));
  }

  lemma VisitExpands(table: Table, universe: set<Type>, starts: set<Type>, seen: set<Type>, queue: seq<Type>, unseen: seq<Type>)
    requires Universe(table, universe) && queue != [] && queue[0] in universe
    requires Expanding(ReferenceGraph(table, universe), starts, seen, Elements(queue))
    requires Elements(unseen) == Elements(DirectReferences(table, queue[0])) - (seen + {queue[0]})
    ensures Expanding(ReferenceGraph(table, universe), starts, seen + {queue[0]}, Elements(queue[1..] + unseen))
  {
    var g, handle := ReferenceGraph(table, universe), queue[0];
    ElementsTail(queue);
    ExpandingVisit(g, starts, seen, Elements(queue), handle, Elements(queue[1..]));
    ElementsAppend(queue[1..], unseen);
    assert Elements(queue[1..] + unseen) == Elements(queue[1..]) + (g[handle] - (seen + {handle}));
  }

  // ----- Occurrences -----

  /** The references counted: those of the roots, then of each instantiation in turn. */
  function Rows(table: Table, starts: seq<Type>, order: seq<Type>): (rows: seq<seq<Type>>)
    requires Handles(table, order)
    ensures |rows| == |order| + 1
  {
    [starts] + seq(|order|, i requires 0 <= i < |order| => DirectReferences(table, order[i]))
  }

  predicate At(rows: seq<seq<Type>>, r: nat, k: nat, x: Type) {
    r < |rows| && k < |rows[r]| && rows[r][k] == x
  }

  ghost predicate Once(rows: seq<seq<Type>>, x: Type) {
    exists r: nat, k: nat :: At(rows, r, k, x)
  }

  /** Two different places name x. */
  ghost predicate Twice(rows: seq<seq<Type>>, x: Type) {
    exists r: nat, k: nat, r': nat, k': nat :: At(rows, r, k, x) && At(rows, r', k', x) && (r, k) != (r', k')
  }

  lemma {:induction false} CountTwo(s: seq<Type>, x: Type)
    ensures multiset(s)[x] > 1 <==> exists i, j :: 0 <= i < j < |s| && s[i] == s[j] == x
  {
    if s != [] {
      var n := |s| - 1;
      CountTwo(s[..n], x);
      assert s == s[..n] + [s[n]];
      if multiset(s)[x] > 1 && multiset(s[..n])[x] <= 1 {
        assert s[n] == x && x in s[..n];
        var i :| 0 <= i < n && s[..n][i] == x;
        assert s[i] == s[n] == x;
      }
      if i, j :| 0 <= i < j < |s| && s[i] == s[j] == x {
        if j < n {
          assert s[..n][i] == s[..n][j] == x;
        } else {
          assert s[..n][i] == x;
        }
      }
    }
  }

  lemma OnceNext(rows: seq<seq<Type>>, row: seq<Type>, x: Type)
    ensures Once(rows + [row], x) <==> Once(rows, x) || x in row
  {
    var all := rows + [row];
    if r: nat, k: nat :| At(all, r, k, x) && r < |rows| {
      assert At(rows, r, k, x);
    }
    if r: nat, k: nat :| At(rows, r, k, x) {
      assert At(all, r, k, x);
    }
    if k: nat :| k < |row| && row[k] == x {
      assert At(all, |rows|, k, x);
    }
  }

  lemma PlacesNext(rows: seq<seq<Type>>, row: seq<Type>, x: Type, r: nat, k: nat)
    ensures At(rows + [row], r, k, x) <==> At(rows, r, k, x) || (r == |rows| && k < |row| && row[k] == x)
    ensures At(rows, r, k, x) ==> r < |rows|
  {
  }

  lemma TwiceNext(rows: seq<seq<Type>>, row: seq<Type>, x: Type)
    ensures Twice(rows + [row], x) <==> Twice(rows, x) || (Once(rows, x) && x in row) || multiset(row)[x] > 1
  {
    hide At;
    CountTwo(row, x);
    forall r: nat, k: nat
      ensures At(rows + [row], r, k, x) <==> At(rows, r, k, x) || (r == |rows| && k < |row| && row[k] == x)
      ensures At(rows, r, k, x) ==> r < |rows|
    {
      PlacesNext(rows, row, x, r, k);
    }
    if Twice(rows, x) || (Once(rows, x) && x in row) || multiset(row)[x] > 1 {
      NamedTwice(rows, row, x);
    }
  }

  lemma NamedTwice(rows: seq<seq<Type>>, row: seq<Type>, x: Type)
    requires Twice(rows, x) || (Once(rows, x) && x in row) || multiset(row)[x] > 1
    ensures Twice(rows + [row], x)
  {
    var all := rows + [row];
    if Twice(rows, x) {
      var r: nat, k: nat, r': nat, k': nat :| At(rows, r, k, x) && At(rows, r', k', x) && (r, k) != (r', k');
      assert At(all, r, k, x) && At(all, r', k', x);
    } else if Once(rows, x) && x in row {
      var r: nat, k: nat :| At(rows, r, k, x);
      var k': nat :| k' < |row| && row[k'] == x;
      assert At(all, r, k, x) && At(all, |rows|, k', x);
    } else {
      CountTwo(row, x);
      var i: nat, j: nat :| i < j < |row| && row[i] == row[j] == x;
      assert At(all, |rows|, i, x) && At(all, |rows|, j, x);
    }
  }

  lemma NothingNamed(x: Type)
    ensures !Once([], x) && !Twice([], x)
  {
  }

  /** What is tallied is how often a reference is named, and more than once means at two places. */
  lemma {:induction false} TallyCounts(table: Table, starts: seq<Type>, order: seq<Type>, x: Type)
    requires Handles(table, order)
    ensures (multiset(starts) + Tally(table, order))[x] > 0 <==> Once(Rows(table, starts, order), x)
    ensures (multiset(starts) + Tally(table, order))[x] > 1 <==> Twice(Rows(table, starts, order), x)
  {
    hide Once, Twice, DirectReferences;
    if order == [] {
      OnceNext([], starts, x);
      TwiceNext([], starts, x);
      assert [] + [starts] == Rows(table, starts, order);
      NothingNamed(x);
    } else {
      var n := |order| - 1;
      var row := DirectReferences(table, order[n]);
      TallyCounts(table, starts, order[..n], x);
      assert Rows(table, starts, order) == Rows(table, starts, order[..n]) + [row];
      OnceNext(Rows(table, starts, order[..n]), row, x);
      TwiceNext(Rows(table, starts, order[..n]), row, x);
    }
  }

  // ----- The order of expansion -----

  /** A list without what it repeats: each element where it first occurs. */
  function FirstOnly(s: seq<Type>): seq<Type> {
    if s == [] then []
    else
      var before := FirstOnly(s[..|s| - 1]);
      if s[|s| - 1] in s[..|s| - 1] then before else before + [s[|s| - 1]]
  }

  /** What is left of a list without repeats stands where it first occurs. */
  lemma {:induction false} FirstOnlyIs(s: seq<Type>) returns (at: seq<nat>)
    ensures |at| == |FirstOnly(s)| && forall k :: 0 <= k < |at| ==> at[k] < |s| && FirstOnly(s)[k] == s[at[k]] && s[at[k]] !in s[..at[k]]
    ensures forall i, j :: 0 <= i < j < |at| ==> at[i] < at[j]
    ensures forall x :: x in FirstOnly(s) <==> x in s
  {
    at := [];
    if s != [] {
      var n := |s| - 1;
      at := FirstOnlyIs(s[..n]);
      assert s == s[..n] + [s[n]];
      assert forall k :: 0 <= k < |at| ==> s[..n][..at[k]] == s[..at[k]];
      if s[n] !in s[..n] {
        at := at + [n];
      }
    }
  }

  /** What the first n instantiations put at the end of the queue, each in turn: its references that neither it
      nor any instantiation before it is, sorted. */
  function Encounters(table: Table, sorted: set<Type> -> seq<Type>, order: seq<Type>, n: nat): seq<Type>
    requires n <= |order| && Handles(table, order)
  {
    if n == 0 then []
    else Encounters(table, sorted, order, n - 1) + sorted(Elements(DirectReferences(table, order[n - 1])) - Elements(order[..n]))
  }

  /** Instantiations are listed in the order they are first encountered, breadth first: the roots' references,
      then those of each instantiation listed, in turn. */
  ghost predicate FirstEncounterOrder(table: Table, sorted: set<Type> -> seq<Type>, starts: seq<Type>, order: seq<Type>) {
    && Handles(table, order)
    && order == FirstOnly(starts + Encounters(table, sorted, order, |order|))
  }

  /** What has been taken from the queue, and what is left of it, are all encounters so far. */
  ghost predicate Queued(table: Table, sorted: set<Type> -> seq<Type>, starts: seq<Type>, order: seq<Type>, taken: seq<Type>, queue: seq<Type>) {
    && Handles(table, order)
    && taken + queue == starts + Encounters(table, sorted, order, |order|)
    && order == FirstOnly(taken) && SameMembers(taken, order)
  }

  ghost predicate SameMembers(a: seq<Type>, b: seq<Type>) {
    forall x :: x in a <==> x in b
  }

  lemma SameMembersNext(a: seq<Type>, b: seq<Type>, x: Type)
    requires SameMembers(a, b)
    ensures SameMembers(a + [x], b + [x])
    ensures x in b ==> SameMembers(a + [x], b)
  {
  }

  lemma FirstOnlyNext(taken: seq<Type>, x: Type)
    ensures FirstOnly(taken + [x]) == if x in taken then FirstOnly(taken) else FirstOnly(taken) + [x]
  {
    assert (taken + [x])[..|taken|] == taken;
  }

  lemma QueuedSkip(table: Table, sorted: set<Type> -> seq<Type>, starts: seq<Type>, order: seq<Type>, taken: seq<Type>, queue: seq<Type>)
    requires Queued(table, sorted, starts, order, taken, queue) && queue != [] && queue[0] in order
    ensures Queued(table, sorted, starts, order, taken + [queue[0]], queue[1..])
  {
    FirstOnlyNext(taken, queue[0]);
    SameMembersNext(taken, order, queue[0]);
    assert queue[0] in taken;
    hide FirstOnly, Encounters, Handles, SameMembers;
    assert taken + [queue[0]] + queue[1..] == taken + queue;
  }

  lemma {:induction false} EncountersOfPrefix(table: Table, sorted: set<Type> -> seq<Type>, order: seq<Type>, more: seq<Type>, n: nat)
    requires n <= |order| && Handles(table, order + more)
    requires Handles(table, order)
    ensures Encounters(table, sorted, order + more, n) == Encounters(table, sorted, order, n)
  {
    if n > 0 {
      EncountersOfPrefix(table, sorted, order, more, n - 1);
      assert (order + more)[..n] == order[..n];
    }
  }

  lemma EncountersNext(table: Table, sorted: set<Type> -> seq<Type>, order: seq<Type>, handle: Type)
    requires Handles(table, order) && IsHandle(table, handle)
    ensures Handles(table, order + [handle])
    ensures Encounters(table, sorted, order + [handle], |order| + 1)
         == Encounters(table, sorted, order, |order|) + sorted(Elements(DirectReferences(table, handle)) - Elements(order + [handle]))
  {
    HandlesNext(table, order, handle);
    hide DirectReferences, Handles, Elements;
    EncountersOfPrefix(table, sorted, order, [handle], |order|);
    assert (order + [handle])[..|order| + 1] == order + [handle];
  }

  lemma QueuedVisit(table: Table, sorted: set<Type> -> seq<Type>, starts: seq<Type>, order: seq<Type>, taken: seq<Type>, queue: seq<Type>)
    requires Queued(table, sorted, starts, order, taken, queue) && queue != [] && queue[0] !in order && IsHandle(table, queue[0])
    ensures var handle := queue[0];
            var unseen := sorted(Elements(DirectReferences(table, handle)) - Elements(order + [handle]));
            Queued(table, sorted, starts, order + [handle], taken + [handle], queue[1..] + unseen)
  {
    var handle := queue[0];
    var encountered := Encounters(table, sorted, order, |order|);
    var unseen := sorted(Elements(DirectReferences(table, handle)) - Elements(order + [handle]));
    assert handle !in taken;
    FirstOnlyNext(taken, handle);
    SameMembersNext(taken, order, handle);
    HandlesNext(table, order, handle);
    EncountersNext(table, sorted, order, handle);
    Requeued(starts, encountered, taken, queue, unseen);
    hide FirstOnly, Encounters, DirectReferences, Elements, Handles, IsHandle, SameMembers;
  }

  lemma Requeued(starts: seq<Type>, encountered: seq<Type>, taken: seq<Type>, queue: seq<Type>, unseen: seq<Type>)
    requires queue != [] && taken + queue == starts + encountered
    ensures taken + [queue[0]] + (queue[1..] + unseen) == starts + (encountered + unseen)
  {
    assert taken + [queue[0]] + (queue[1..] + unseen) == (taken + queue) + unseen;
    assert (starts + encountered) + unseen == starts + (encountered + unseen);
  }

  /** Breadth-first expansion. `sorted` lists a set in the order of the instantiations' sort keys. */
  method BuildInstantiationPlan(table: Table, roots: seq<Type>, sorted: set<Type> -> seq<Type>, ghost universe: set<Type>)
    returns (order: seq<Type>, adjacency: Graph<Type>, occurrences: multiset<Type>)
    requires Universe(table, universe) && Elements(RootReferences(table, roots)) <= universe
    requires forall s: set<Type> :: Elements(sorted(s)) == s
    ensures IsExpansion(table, universe, RootReferences(table, roots), order, adjacency, occurrences)
    ensures FirstEncounterOrder(table, sorted, RootReferences(table, roots), order)
  {
    var rootReferences := RootReferences(table, roots);
    order, adjacency, occurrences := [], map[], multiset(rootReferences);
    var seen: set<Type> := {};
    var queue := rootReferences;
    ghost var taken: seq<Type> := [];
    assert [] + queue == rootReferences + [];
    ExpandingStarts(ReferenceGraph(table, universe), Elements(rootReferences));
    while queue != []
      invariant Expanding(ReferenceGraph(table, universe), Elements(rootReferences), seen, Elements(queue))
      invariant Recorded(table, universe, rootReferences, seen, order, adjacency, occurrences)
      invariant Queued(table, sorted, rootReferences, order, taken, queue)
      decreases universe - seen, |queue|
    {
      var handle := queue[0];
      assert handle in Elements(queue);
      if handle in seen {
        SkipSeen(table, universe, Elements(rootReferences), seen, queue);
        assert handle in Elements(order);
        QueuedSkip(table, sorted, rootReferences, order, taken, queue);
        taken, queue := taken + [handle], queue[1..];
      } else {
        var references := DirectReferences(table, handle);
        var neighbours := Elements(references);
        var unseen := sorted(neighbours - (seen + {handle}));
        VisitExpands(table, universe, Elements(rootReferences), seen, queue, unseen);
        RecordOne(table, universe, rootReferences, seen, order, adjacency, occurrences, handle);
        ElementsAdd(order, handle);
        assert handle !in Elements(order);
        QueuedVisit(table, sorted, rootReferences, order, taken, queue);
        taken := taken + [handle];
        seen := seen + {handle};
        order := order + [handle];
        occurrences := occurrences + multiset(references);
        adjacency := adjacency[handle := neighbours];
        queue := queue[1..] + unseen;
      }
    }
    ExpandingDone(ReferenceGraph(table, universe), Elements(rootReferences), seen);
    assert taken + [] == taken;
  }

  lemma ElementsTail<T>(s: seq<T>)
    requires s != []
    ensures Elements(s) == {s[0]} + Elements(s[1..])
  {
    assert s == [s[0]] + s[1..];
  }

  lemma ElementsAdd<T>(s: seq<T>, x: T)
    ensures Elements(s + [x]) == Elements(s) + {x}
  {
  }

  lemma ElementsAppend<T>(a: seq<T>, b: seq<T>)
    ensures Elements(a + b) == Elements(a) + Elements(b)
  {
  }

  // ----- Which instantiations are hoisted -----

  predicate Covered(components: seq<seq<Type>>, a: Type) {
    exists i :: 0 <= i < |components| && a in components[i]
  }

  predicate Together(components: seq<seq<Type>>, i: nat, a: Type, b: Type) {
    i < |components| && a in components[i] && b in components[i]
  }

  ghost predicate Mutual(g: Graph<Type>, a: Type, b: Type) {
    a in g && b in g && Reaches(g, a, b) && Reaches(g, b, a)
  }

  /** What the strongly-connected-components routine returns: classes of mutually reaching nodes. */
  ghost predicate IsComponents(g: Graph<Type>, components: seq<seq<Type>>) {
    && (forall i :: 0 <= i < |components| ==> |components[i]| > 0 && Distinct(components[i]))
    && (forall a {:trigger Covered(components, a)} :: a in g ==> Covered(components, a))
    && (forall i: nat, a, b {:trigger Together(components, i, a, b)} ::
          i < |components| && a in components[i] ==> (Together(components, i, a, b) <==> Mutual(g, a, b)))
  }

  ghost function Cyclic(g: Graph<Type>): set<Type> {
    set a | a in g.Keys && OnCycle(g, a)
  }

  /** Hoisted instantiations are referenced more than once or recursive. */
  ghost function Hoisted(adjacency: Graph<Type>, occurrences: multiset<Type>): set<Type> {
    (set handle | handle in adjacency.Keys && occurrences[handle] > 1) + Cyclic(adjacency)
  }

  /** The elements of a list that are to be kept, where they stand. */
  function Selected(order: seq<Type>, keep: set<Type>): seq<Type> {
    if order == [] then []
    else (if order[0] in keep then [order[0]] else []) + Selected(order[1..], keep)
  }

  /** One list's elements come in the order they have in another. */
  ghost predicate Follows(part: seq<Type>, order: seq<Type>) {
    exists at: seq<nat> :: PicksIn(part, order, at)
  }

  /** Where in a list the elements of a part of it stand, from left to right. */
  ghost predicate PicksIn(part: seq<Type>, order: seq<Type>, at: seq<nat>) {
    && |at| == |part|
    && (forall i :: 0 <= i < |at| ==> at[i] < |order| && order[at[i]] == part[i])
    && (forall i, j :: 0 <= i < j < |at| ==> at[i] < at[j])
  }

  lemma {:induction false} SelectedIs(order: seq<Type>, keep: set<Type>)
    ensures forall x :: x in Selected(order, keep) <==> x in order && x in keep
    ensures Distinct(order) ==> Distinct(Selected(order, keep))
  {
    if order != [] {
      SelectedIs(order[1..], keep);
      assert order == [order[0]] + order[1..];
    }
  }

  function Later(at: seq<nat>): (moved: seq<nat>)
    ensures |moved| == |at| && forall i :: 0 <= i < |at| ==> moved[i] == at[i] + 1
  {
    seq(|at|, i requires 0 <= i < |at| => at[i] + 1)
  }

  lemma PicksLater(part: seq<Type>, order: seq<Type>, at: seq<nat>)
    requires order != [] && PicksIn(part, order[1..], at)
    ensures PicksIn(part, order, Later(at))
  {
    forall i | 0 <= i < |at|
      ensures Later(at)[i] < |order| && order[Later(at)[i]] == part[i]
    {
      assert order[1..][at[i]] == order[at[i] + 1];
    }
  }

  lemma PicksFirst(part: seq<Type>, order: seq<Type>, at: seq<nat>)
    requires order != [] && PicksIn(part, order, Later(at))
    ensures PicksIn([order[0]] + part, order, [0] + Later(at))
  {
  }

  lemma FollowsNothing(order: seq<Type>)
    ensures Follows([], order)
  {
    assert PicksIn([], order, []);
  }

  lemma {:induction false} SelectedFollows(order: seq<Type>, keep: set<Type>)
    ensures Follows(Selected(order, keep), order)
  {
    if order == [] {
      FollowsNothing(order);
    } else {
      SelectedFollows(order[1..], keep);
      var rest := Selected(order[1..], keep);
      var at :| PicksIn(rest, order[1..], at);
      PicksLater(rest, order, at);
      PicksFirst(rest, order, at);
      assert [] + rest == rest;
    }
  }

  /** What a component contributes: all of it, or its one member when that refers to itself. */
  function FromComponent(g: Graph<Type>, component: seq<Type>): set<Type>
    requires |component| > 0 && component[0] in g
  {
    if |component| > 1 then Elements(component)
    else if component[0] in g[component[0]] then {component[0]} else {}
  }

  /** Whether a node is on a cycle, told from its component. */
  lemma ComponentCycle(g: Graph<Type>, components: seq<seq<Type>>, i: nat, a: Type)
    requires Closed(g) && IsComponents(g, components) && i < |components| && a in components[i]
    ensures a in g
    ensures OnCycle(g, a) <==> |components[i]| > 1 || a in g[a]
  {
    var c := components[i];
    assert Together(components, i, a, a);
    if |c| > 1 {
      var b := if a == c[0] then c[1] else c[0];
      assert Together(components, i, a, b);
      var p :| WalkFromTo(g, p, a, b);
      assert |p| > 1 && p[1] in g[a];
      assert WalkFromTo(g, p[1..], p[1], b);
      ReachesThen(g, p[1], b, a);
    } else {
      assert c == [a];
      if a in g[a] {
        ReachesItself(g, a);
      }
      if OnCycle(g, a) {
        var b :| b in g[a] && Reaches(g, b, a);
        ReachesItself(g, b);
        ReachesStep(g, a, b, b);
        assert Mutual(g, a, b);
        assert Together(components, i, a, b);
      }
    }
  }

  /** A component contributes exactly its recursive members. */
  lemma ComponentContributes(g: Graph<Type>, components: seq<seq<Type>>, i: nat)
    requires Closed(g) && IsComponents(g, components) && i < |components|
    ensures components[i][0] in g
    ensures FromComponent(g, components[i]) == Elements(components[i]) * Cyclic(g)
  {
    var c := components[i];
    ComponentCycle(g, components, i, c[0]);
    forall a
      ensures a in FromComponent(g, c) <==> a in Elements(c) && a in Cyclic(g)
    {
      if a in c {
        ComponentCycle(g, components, i, a);
        assert |c| == 1 ==> c == [a];
      }
    }
  }

  function FromComponents(g: Graph<Type>, components: seq<seq<Type>>, n: nat): set<Type>
    requires n <= |components| && forall i :: 0 <= i < n ==> |components[i]| > 0 && components[i][0] in g
  {
    if n == 0 then {} else FromComponents(g, components, n - 1) + FromComponent(g, components[n - 1])
  }

  function Members(components: seq<seq<Type>>, n: nat): set<Type>
    requires n <= |components|
  {
    set i, a | 0 <= i < n && a in components[i] :: a
  }

  lemma {:induction false} FromComponentsAre(g: Graph<Type>, components: seq<seq<Type>>, cyclic: set<Type>, n: nat)
    requires n <= |components|
    requires forall i :: 0 <= i < n ==> |components[i]| > 0 && components[i][0] in g
    requires forall i :: 0 <= i < n ==> FromComponent(g, components[i]) == Elements(components[i]) * cyclic
    ensures FromComponents(g, components, n) == Members(components, n) * cyclic
  {
    if n > 0 {
      FromComponentsAre(g, components, cyclic, n - 1);
      assert Members(components, n) == Members(components, n - 1) + Elements(components[n - 1]);
    }
  }

  lemma CyclicIsFromComponents(g: Graph<Type>, components: seq<seq<Type>>)
    requires Closed(g) && IsComponents(g, components)
    ensures forall i :: 0 <= i < |components| ==> components[i][0] in g
    ensures FromComponents(g, components, |components|) == Cyclic(g)
  {
    forall i: nat | i < |components|
      ensures components[i][0] in g
      ensures FromComponent(g, components[i]) == Elements(components[i]) * Cyclic(g)
    {
      ComponentContributes(g, components, i);
    }
    FromComponentsAre(g, components, Cyclic(g), |components|);
    forall a | a in Cyclic(g)
      ensures a in Members(components, |components|)
    {
      assert Covered(components, a);
    }
  }

  lemma SelectedAre(order: seq<Type>, keep: set<Type>)
    requires Distinct(order) && keep <= Elements(order)
    ensures Elements(Selected(order, keep)) == keep && Distinct(Selected(order, keep)) && Follows(Selected(order, keep), order)
  {
    hide Follows, Distinct;
    SelectedIs(order, keep);
    SelectedFollows(order, keep);
  }

  lemma FromNext(g: Graph<Type>, components: seq<seq<Type>>, before: set<Type>, n: nat)
    requires n < |components| && forall i :: 0 <= i <= n ==> |components[i]| > 0 && components[i][0] in g
    ensures before + FromComponents(g, components, n + 1)
         == var c := components[n];
            if |c| > 1 then before + FromComponents(g, components, n) + Elements(c)
            else if c[0] in g[c[0]] then before + FromComponents(g, components, n) + {c[0]}
            else before + FromComponents(g, components, n)
  {
    hide Elements;
  }

  method ChooseHoisted(order: seq<Type>, adjacency: Graph<Type>, occurrences: multiset<Type>, sccs: Graph<Type> -> seq<seq<Type>>)
    returns (hoisted: set<Type>, hoistedOrder: seq<Type>)
    requires Closed(adjacency) && Elements(order) == adjacency.Keys && Distinct(order)
    requires IsComponents(adjacency, sccs(adjacency))
    ensures hoisted == Hoisted(adjacency, occurrences)
    ensures Elements(hoistedOrder) == hoisted && Distinct(hoistedOrder) && Follows(hoistedOrder, order)
  {
    hide Follows, Closed, OnCycle;
    if adjacency.Keys == {} {
      FollowsNothing(order);
      return {}, [];
    }
    var components := sccs(adjacency);
    CyclicIsFromComponents(adjacency, components);
    assert forall i :: 0 <= i < |components| ==> |components[i]| > 0;
    hide IsComponents;
    hoisted := set handle | handle in adjacency.Keys && occurrences[handle] > 1;
    ghost var shared := hoisted;
    assert Hoisted(adjacency, occurrences) == shared + FromComponents(adjacency, components, |components|);
    assert Hoisted(adjacency, occurrences) <= Elements(order);
    hide Hoisted, Cyclic, Distinct, FromComponents, Elements;
    for i := 0 to |components|
      invariant hoisted == shared + FromComponents(adjacency, components, i)
    {
      var component := components[i];
      FromNext(adjacency, components, shared, i);
      if |component| > 1 {
        hoisted := hoisted + Elements(component);
      } else if component[0] in adjacency[component[0]] {
        hoisted := hoisted + {component[0]};
      }
    }
    SelectedAre(order, hoisted);
    hide Selected;
    hoistedOrder := Selected(order, hoisted);
  }
}
