/** Finite directed graphs: walks, reachability and cycles. */
module Graphs {

  type Graph<T> = map<T, set<T>>

  ghost predicate Closed<T>(g: Graph<T>) {
    forall a :: a in g ==> g[a] <= g.Keys
  }

  ghost predicate IsWalk<T>(g: Graph<T>, p: seq<T>) {
    |p| > 0 && forall i :: 0 <= i < |p| - 1 ==> p[i] in g && p[i + 1] in g[p[i]]
  }

  ghost predicate WalkFromTo<T>(g: Graph<T>, p: seq<T>, a: T, b: T) {
    IsWalk(g, p) && p[0] == a && p[|p| - 1] == b
  }

  ghost predicate Reaches<T(!new)>(g: Graph<T>, a: T, b: T) {
    exists p :: WalkFromTo(g, p, a, b)
  }

  ghost predicate OnCycle<T(!new)>(g: Graph<T>, a: T) {
    a in g && exists b :: b in g[a] && Reaches(g, b, a)
  }

  ghost predicate ReachedFrom<T(!new)>(g: Graph<T>, from: set<T>, b: T) {
    exists a :: a in from && Reaches(g, a, b)
  }

  ghost function ReachSet<T(!new)>(g: Graph<T>, from: set<T>): set<T> {
    set b | b in g.Keys && ReachedFrom(g, from, b)
  }

  lemma ReachesItself<T(!new)>(g: Graph<T>, a: T)
    ensures Reaches(g, a, a)
  {
    assert WalkFromTo(g, [a], a, a);
  }

  lemma ReachesStep<T(!new)>(g: Graph<T>, a: T, b: T, c: T)
    requires a in g && b in g[a] && Reaches(g, b, c)
    ensures Reaches(g, a, c)
  {
    var p :| WalkFromTo(g, p, b, c);
    assert WalkFromTo(g, [a] + p, a, c);
  }

  lemma ReachesThen<T(!new)>(g: Graph<T>, a: T, b: T, c: T)
    requires Reaches(g, a, b) && Reaches(g, b, c)
    ensures Reaches(g, a, c)
  {
    var p :| WalkFromTo(g, p, a, b);
    var q :| WalkFromTo(g, q, b, c);
    var w := p + q[1..];
    forall i | 0 <= i < |w| - 1
      ensures w[i] in g && w[i + 1] in g[w[i]]
    {
      if i >= |p| - 1 {
        assert w[i] == q[i - |p| + 1] && w[i + 1] == q[i - |p| + 2];
      }
    }
    assert WalkFromTo(g, w, a, c);
  }

  /** A set closed under edges holds everything its members reach. */
  lemma ClosedSetReaches<T(!new)>(g: Graph<T>, s: set<T>, a: T, b: T)
    requires a in s && Reaches(g, a, b)
    requires forall c :: c in s && c in g ==> g[c] <= s
    ensures b in s
  {
    var p :| WalkFromTo(g, p, a, b);
    for i := 0 to |p| - 1
      invariant p[i] in s
    {
    }
  }

  /** Following an edge off every cycle strictly shrinks what can be reached. */
  lemma ReachShrinks<T(!new)>(g: Graph<T>, from: set<T>, a: T, next: set<T>)
    requires Closed(g) && a in from && a in g && next <= g[a] && !OnCycle(g, a)
    ensures ReachSet(g, next) < ReachSet(g, from)
  {
    ReachesItself(g, a);
    assert ReachedFrom(g, from, a);
    forall b | b in ReachSet(g, next)
      ensures b in ReachSet(g, from)
    {
      var c :| c in next && Reaches(g, c, b);
      ReachesStep(g, a, c, b);
    }
    assert forall c :: c in next ==> c in g[a] && !Reaches(g, c, a);
    assert a in ReachSet(g, from) && a !in ReachSet(g, next);
  }

  lemma ReachSetMonotone<T(!new)>(g: Graph<T>, from: set<T>, more: set<T>)
    requires from <= more
    ensures ReachSet(g, from) <= ReachSet(g, more)
  {
    forall b | b in ReachSet(g, from)
      ensures b in ReachSet(g, more)
    {
      var a :| a in from && Reaches(g, a, b);
      assert ReachedFrom(g, more, b);
    }
  }

  /** A reachable node is a start or a successor of a reachable node. */
  lemma ReachSetStep<T(!new)>(g: Graph<T>, starts: set<T>, b: T) returns (a: T)
    requires Closed(g) && starts <= g.Keys && b in ReachSet(g, starts) && b !in starts
    ensures a in ReachSet(g, starts) && b in g[a]
  {
    var s :| s in starts && Reaches(g, s, b);
    var p :| WalkFromTo(g, p, s, b);
    a := p[|p| - 2];
    assert p[|p| - 1] in g[a];
    assert WalkFromTo(g, p[..|p| - 1], s, a);
    assert ReachedFrom(g, starts, a);
  }

  // ----- A part of a graph with all its edges -----

  ghost predicate IsPart<T(!new)>(part: Graph<T>, g: Graph<T>) {
    Closed(part) && part.Keys <= g.Keys && forall a :: a in part ==> part[a] == g[a]
  }

  lemma PartReaches<T(!new)>(part: Graph<T>, g: Graph<T>, a: T, b: T)
    requires IsPart(part, g) && a in part
    ensures Reaches(part, a, b) <==> Reaches(g, a, b)
  {
    if Reaches(part, a, b) {
      var p :| WalkFromTo(part, p, a, b);
      assert WalkFromTo(g, p, a, b);
    }
    if Reaches(g, a, b) {
      var p :| WalkFromTo(g, p, a, b);
      for n := 0 to |p| - 1
        invariant p[n] in part && forall i :: 0 <= i < n ==> p[i] in part && p[i + 1] in part[p[i]]
      {
      }
      assert WalkFromTo(part, p, a, b);
    }
  }

  /** The cycles of a part are the graph's. */
  lemma PartCycles<T(!new)>(part: Graph<T>, g: Graph<T>, a: T)
    requires IsPart(part, g) && a in part
    ensures OnCycle(part, a) <==> OnCycle(g, a)
  {
    forall b | b in g[a]
      ensures Reaches(part, b, a) <==> Reaches(g, b, a)
    {
      PartReaches(part, g, b, a);
    }
  }

  // ----- Worklist expansion -----

  /** What holds while a worklist expands a graph from its starts: everything seen or waiting is reachable,
      and every edge out of a seen node leads to one that is seen or waiting. */
  ghost predicate Expanding<T(!new)>(g: Graph<T>, starts: set<T>, seen: set<T>, waiting: set<T>) {
    && seen <= g.Keys && waiting <= g.Keys && starts <= seen + waiting
    && (forall a :: a in seen + waiting ==> ReachedFrom(g, starts, a))
    && (forall a :: a in seen ==> g[a] <= seen + waiting)
  }

  lemma ExpandingStarts<T(!new)>(g: Graph<T>, starts: set<T>)
    requires starts <= g.Keys
    ensures Expanding(g, starts, {}, starts)
  {
    forall a | a in starts
      ensures ReachedFrom(g, starts, a)
    {
      ReachesItself(g, a);
    }
  }

  lemma ReachedNext<T(!new)>(g: Graph<T>, from: set<T>, a: T, b: T)
    requires ReachedFrom(g, from, a) && a in g && b in g[a]
    ensures ReachedFrom(g, from, b)
  {
    var start :| start in from && Reaches(g, start, a);
    ReachesItself(g, b);
    ReachesStep(g, a, b, b);
    ReachesThen(g, start, a, b);
  }

  /** Visiting a waiting node whose unseen successors then wait. */
  lemma ExpandingVisit<T(!new)>(g: Graph<T>, starts: set<T>, seen: set<T>, waiting: set<T>, a: T, rest: set<T>)
    requires Closed(g) && Expanding(g, starts, seen, waiting) && a in waiting && waiting - {a} <= rest <= waiting
    ensures Expanding(g, starts, seen + {a}, rest + (g[a] - (seen + {a})))
  {
    hide ReachedFrom;
    forall b | b in g[a]
      ensures ReachedFrom(g, starts, b)
    {
      ReachedNext(g, starts, a, b);
    }
  }

  /** Skipping a waiting node that was seen already. */
  lemma ExpandingSkip<T(!new)>(g: Graph<T>, starts: set<T>, seen: set<T>, waiting: set<T>, a: T, rest: set<T>)
    requires Expanding(g, starts, seen, waiting) && a in seen && waiting - {a} <= rest <= waiting
    ensures Expanding(g, starts, seen, rest)
  {
    assert seen + rest == seen + waiting;
  }

  lemma ExpandingDone<T(!new)>(g: Graph<T>, starts: set<T>, seen: set<T>)
    requires Expanding(g, starts, seen, {})
    ensures seen == ReachSet(g, starts)
  {
    forall b | b in ReachSet(g, starts)
      ensures b in seen
    {
      var a :| a in starts && Reaches(g, a, b);
      ClosedSetReaches(g, seen, a, b);
    }
  }
}
