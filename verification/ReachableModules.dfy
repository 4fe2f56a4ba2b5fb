/** Collecting a module and its dependencies with an explicit stack, in recursive depth-first order. */
module ReachableModules {

  type Adjacency = map<nat, seq<nat>>

  /** Every dependency of a module is itself in the table. */
  ghost predicate Closed(adjacency: Adjacency) {
    forall m, d :: m in adjacency && d in adjacency[m] ==> d in adjacency
  }

  ghost predicate Known(adjacency: Adjacency, modules: seq<nat>) {
    forall m :: m in modules ==> m in adjacency
  }

  predicate NoRepeats(modules: seq<nat>) {
    forall i, j :: 0 <= i < j < |modules| ==> modules[i] != modules[j]
  }

  function Unvisited(adjacency: Adjacency, reached: seq<nat>): set<nat> {
    set m | m in adjacency && m !in reached
  }

  /** The recursive depth-first walk: visit each module not yet reached, then its dependencies in order,
      before the next. */
  function Preorder(adjacency: Adjacency, todo: seq<nat>, reached: seq<nat>): (all: seq<nat>)
    requires Closed(adjacency) && Known(adjacency, todo)
    ensures reached <= all && (NoRepeats(reached) ==> NoRepeats(all))
    decreases |Unvisited(adjacency, reached)|, |todo|
  {
    if todo == [] then reached
    else if todo[0] in reached then Preorder(adjacency, todo[1..], reached)
    else
      VisitShrinks(adjacency, reached, todo[0]);
      var below := Preorder(adjacency, adjacency[todo[0]], reached + [todo[0]]);
      ReachedShrinks(adjacency, reached + [todo[0]], below);
      Preorder(adjacency, todo[1..], below)
  }

  lemma ReachedShrinks(adjacency: Adjacency, less: seq<nat>, more: seq<nat>)
    requires less <= more
    ensures |Unvisited(adjacency, more)| <= |Unvisited(adjacency, less)|
  {
    assert Unvisited(adjacency, more) <= Unvisited(adjacency, less);
    SubsetSize(Unvisited(adjacency, more), Unvisited(adjacency, less));
  }

  lemma VisitShrinks(adjacency: Adjacency, reached: seq<nat>, m: nat)
    requires m in adjacency && m !in reached
    ensures |Unvisited(adjacency, reached + [m])| < |Unvisited(adjacency, reached)|
  {
    assert m in Unvisited(adjacency, reached);
    assert Unvisited(adjacency, reached + [m]) == Unvisited(adjacency, reached) - {m};
  }

  lemma {:induction false} SubsetSize(a: set<nat>, b: set<nat>)
    requires a <= b
    ensures |a| <= |b|
  {
    if a != {} {
      var x :| x in a;
      SubsetSize(a - {x}, b - {x});
    }
  }

  /** Walking a list is walking its parts one after the other. */
  lemma {:induction false} PreorderAppend(adjacency: Adjacency, first: seq<nat>, second: seq<nat>, reached: seq<nat>)
    requires Closed(adjacency) && Known(adjacency, first) && Known(adjacency, second)
    ensures Preorder(adjacency, first + second, reached) == Preorder(adjacency, second, Preorder(adjacency, first, reached))
    decreases |Unvisited(adjacency, reached)|, |first|
  {
    if first == [] {
      assert first + second == second;
    } else {
      assert (first + second)[1..] == first[1..] + second;
      if first[0] in reached {
        PreorderAppend(adjacency, first[1..], second, reached);
      } else {
        VisitShrinks(adjacency, reached, first[0]);
        var below := Preorder(adjacency, adjacency[first[0]], reached + [first[0]]);
        ReachedShrinks(adjacency, reached + [first[0]], below);
        PreorderAppend(adjacency, first[1..], second, below);
      }
    }
  }

  function Reversed(s: seq<nat>): (r: seq<nat>)
    ensures |r| == |s|
    ensures forall x :: x in r <==> x in s
  {
    if s == [] then [] else Reversed(s[1..]) + [s[0]]
  }

  lemma {:induction false} ReversedAppend(s: seq<nat>, t: seq<nat>)
    ensures Reversed(s + t) == Reversed(t) + Reversed(s)
  {
    if s == [] {
      assert s + t == t;
    } else {
      assert (s + t)[1..] == s[1..] + t;
      ReversedAppend(s[1..], t);
    }
  }

  lemma {:induction false} ReversedTwice(s: seq<nat>)
    ensures Reversed(Reversed(s)) == s
  {
    if s != [] {
      ReversedTwice(s[1..]);
      ReversedAppend(Reversed(s[1..]), [s[0]]);
    }
  }

  // ----- The explicit stack -----

  /** What the stack holds and has reached leads to the recursive walk's result. */
  ghost predicate LeadsTo(adjacency: Adjacency, pending: seq<nat>, reachable: seq<nat>, result: seq<nat>)
    requires Closed(adjacency) && Known(adjacency, pending)
  {
    Preorder(adjacency, Reversed(pending), reachable) == result
  }

  lemma PopStep(adjacency: Adjacency, pending: seq<nat>, reachable: seq<nat>, result: seq<nat>)
    requires Closed(adjacency) && Known(adjacency, pending) && pending != [] && LeadsTo(adjacency, pending, reachable, result)
    ensures var current, rest := pending[|pending| - 1], pending[..|pending| - 1];
            if current in reachable then LeadsTo(adjacency, rest, reachable, result)
            else LeadsTo(adjacency, rest + Reversed(adjacency[current]), reachable + [current], result)
  {
    var current, rest := pending[|pending| - 1], pending[..|pending| - 1];
    assert pending == rest + [current];
    ReversedAppend(rest, [current]);
    assert Reversed([current]) == [current];
    assert Reversed(pending)[0] == current && Reversed(pending)[1..] == Reversed(rest);
    if current !in reachable {
      ReversedAppend(rest, Reversed(adjacency[current]));
      ReversedTwice(adjacency[current]);
      PreorderAppend(adjacency, adjacency[current], Reversed(rest), reachable + [current]);
    }
  }

  // ----- The order -----

  /** A module comes after these when it is the first dependency not among them of the latest one that has any. */
  ghost predicate ComesNext(adjacency: Adjacency, listed: seq<nat>, m: nat)
    requires Known(adjacency, listed)
  {
    && m !in listed
    && exists j, e :: 0 <= j < |listed| && 0 <= e < |adjacency[listed[j]]| && adjacency[listed[j]][e] == m && Settled(adjacency, listed, j, e)
  }

  /** Of what is listed after module j, and of module j before its dependency e, every dependency is listed. */
  ghost predicate Settled(adjacency: Adjacency, listed: seq<nat>, j: nat, e: nat)
    requires Known(adjacency, listed)
  {
    forall k, d :: 0 <= k < |listed| && 0 <= d < |adjacency[listed[k]]| && (j < k || (j == k && d < e)) ==> adjacency[listed[k]][d] in listed
  }

  ghost predicate DepthFirst(adjacency: Adjacency, listed: seq<nat>)
    requires Known(adjacency, listed)
  {
    forall i :: 0 < i < |listed| ==> ComesNext(adjacency, listed[..i], listed[i])
  }

  lemma DepthFirstNext(adjacency: Adjacency, listed: seq<nat>, m: nat)
    requires Known(adjacency, listed) && DepthFirst(adjacency, listed) && m in adjacency
    requires listed == [] || ComesNext(adjacency, listed, m)
    ensures Known(adjacency, listed + [m]) && DepthFirst(adjacency, listed + [m])
  {
    hide ComesNext;
    var longer := listed + [m];
    forall i | 0 < i < |longer|
      ensures ComesNext(adjacency, longer[..i], longer[i])
    {
      assert longer[..i] == listed[..i];
      assert listed[..|listed|] == listed;
    }
  }

  /** Whose dependency a module on the stack is, by its place in the list, and which. */
  datatype Due = Due(owner: nat, index: nat)

  predicate Sooner(k: nat, d: nat, due: Due) {
    due.owner < k || (due.owner == k && d < due.index)
  }

  ghost predicate DueAt(adjacency: Adjacency, listed: seq<nat>, m: nat, due: Due)
    requires Known(adjacency, listed)
  {
    due.owner < |listed| && due.index < |adjacency[listed[due.owner]]| && adjacency[listed[due.owner]][due.index] == m
  }

  /** A dependency that should come before what stands at p on the stack is listed or above it. */
  ghost predicate Above(adjacency: Adjacency, listed: seq<nat>, pending: seq<nat>, p: nat, due: Due)
    requires Known(adjacency, listed) && p < |pending|
  {
    forall k, d :: 0 <= k < |listed| && 0 <= d < |adjacency[listed[k]]| && Sooner(k, d, due) ==>
                     adjacency[listed[k]][d] in listed || adjacency[listed[k]][d] in pending[p + 1..]
  }

  ghost predicate Owed(adjacency: Adjacency, listed: seq<nat>, pending: seq<nat>, owed: seq<Due>)
    requires Known(adjacency, listed)
  {
    && |owed| == |pending|
    && forall p :: 0 <= p < |pending| ==> DueAt(adjacency, listed, pending[p], owed[p]) && Above(adjacency, listed, pending, p, owed[p])
  }

  lemma TopComesNext(adjacency: Adjacency, listed: seq<nat>, pending: seq<nat>, owed: seq<Due>)
    requires Known(adjacency, listed) && pending != [] && Owed(adjacency, listed, pending, owed) && pending[|pending| - 1] !in listed
    ensures ComesNext(adjacency, listed, pending[|pending| - 1])
  {
    var top := |pending| - 1;
    var due := owed[top];
    assert DueAt(adjacency, listed, pending[top], due) && Above(adjacency, listed, pending, top, due);
    assert pending[top + 1..] == [];
    assert Settled(adjacency, listed, due.owner, due.index);
  }

  lemma OwedSkip(adjacency: Adjacency, listed: seq<nat>, pending: seq<nat>, owed: seq<Due>)
    requires Known(adjacency, listed) && pending != [] && Owed(adjacency, listed, pending, owed) && pending[|pending| - 1] in listed
    ensures Owed(adjacency, listed, pending[..|pending| - 1], owed[..|pending| - 1])
  {
    hide DueAt;
    var n := |pending| - 1;
    forall p | 0 <= p < n
      ensures Above(adjacency, listed, pending[..n], p, owed[p])
    {
      assert Above(adjacency, listed, pending, p, owed[p]);
      assert pending[p + 1..] == pending[..n][p + 1..] + [pending[n]];
    }
  }

  lemma NothingListed(adjacency: Adjacency)
    ensures Known(adjacency, []) && DepthFirst(adjacency, [])
  {
  }

  /** What a module just listed owes: its dependencies, the first on top. */
  function Owing(owner: nat, n: nat): (owed: seq<Due>)
    ensures |owed| == n
  {
    seq(n, q requires 0 <= q < n => Due(owner, n - 1 - q))
  }

  lemma {:induction false} ReversedAt(s: seq<nat>, q: nat)
    requires q < |s|
    ensures Reversed(s)[q] == s[|s| - 1 - q]
  {
    if q < |s| - 1 {
      ReversedAt(s[1..], q);
    }
  }

  lemma OwedBelow(adjacency: Adjacency, listed: seq<nat>, pending: seq<nat>, due: Due, p: nat)
    requires Known(adjacency, listed) && pending != [] && p < |pending| - 1
    requires var m := pending[|pending| - 1]; m in adjacency && DueAt(adjacency, listed, pending[p], due)
    requires Above(adjacency, listed, pending, p, due)
    ensures var n, m := |pending| - 1, pending[|pending| - 1];
            Known(adjacency, listed + [m]) && DueAt(adjacency, listed + [m], pending[p], due)
            && Above(adjacency, listed + [m], pending[..n] + Reversed(adjacency[m]), p, due)
  {
    var n, m := |pending| - 1, pending[|pending| - 1];
    var longer, after := listed + [m], pending[..n] + Reversed(adjacency[m]);
    assert Known(adjacency, longer);
    assert pending[p + 1..] == pending[..n][p + 1..] + [m];
    assert after[p + 1..] == pending[..n][p + 1..] + Reversed(adjacency[m]);
  }

  lemma OwedAbove(adjacency: Adjacency, listed: seq<nat>, rest: seq<nat>, m: nat, q: nat)
    requires Known(adjacency, listed) && m in adjacency && q < |adjacency[m]|
    ensures var after, due := rest + Reversed(adjacency[m]), Owing(|listed|, |adjacency[m]|)[q];
            Known(adjacency, listed + [m]) && DueAt(adjacency, listed + [m], after[|rest| + q], due)
            && Above(adjacency, listed + [m], after, |rest| + q, due)
  {
    var dependencies := adjacency[m];
    var after, due, longer := rest + Reversed(dependencies), Owing(|listed|, |dependencies|)[q], listed + [m];
    ReversedAt(dependencies, q);
    forall d | 0 <= d < due.index
      ensures dependencies[d] in after[|rest| + q + 1..]
    {
      var r := |dependencies| - 1 - d;
      ReversedAt(dependencies, r);
      assert after[|rest| + q + 1..][r - q - 1] == after[|rest| + r];
    }
  }

  lemma OwedVisit(adjacency: Adjacency, listed: seq<nat>, pending: seq<nat>, owed: seq<Due>)
    requires Known(adjacency, listed) && pending != [] && pending[|pending| - 1] in adjacency
    requires Owed(adjacency, listed, pending, owed) || (listed == [] && |owed| == |pending| == 1)
    ensures var n, m := |pending| - 1, pending[|pending| - 1];
            Known(adjacency, listed + [m])
            && Owed(adjacency, listed + [m], pending[..n] + Reversed(adjacency[m]), owed[..n] + Owing(|listed|, |adjacency[m]|))
  {
    hide DueAt, Above;
    var n, m := |pending| - 1, pending[|pending| - 1];
    var after, all := pending[..n] + Reversed(adjacency[m]), owed[..n] + Owing(|listed|, |adjacency[m]|);
    forall p | 0 <= p < |after|
      ensures Known(adjacency, listed + [m]) && DueAt(adjacency, listed + [m], after[p], all[p]) && Above(adjacency, listed + [m], after, p, all[p])
    {
      if p < n {
        OwedBelow(adjacency, listed, pending, owed[p], p);
      } else {
        OwedAbove(adjacency, listed, pending[..n], m, p - n);
      }
    }
  }

  /** A module and its dependencies in adjacency order. */
  method Reachable(start: nat, adjacency: Adjacency) returns (reachable: seq<nat>)
    requires Closed(adjacency) && start in adjacency
    ensures reachable == Preorder(adjacency, [start], [])
    ensures NoRepeats(reachable) && reachable[..1] == [start]
    ensures forall m :: m in reachable <==> ReachesAvoiding(adjacency, {}, start, m)
    ensures Known(adjacency, reachable) && DepthFirst(adjacency, reachable)
  {
    hide DepthFirst, Owed, LeadsTo, ReachesAvoiding, Unvisited, Preorder;
    reachable := [];
    var seen: set<nat> := {};
    var pending := [start];
    ghost var owed := [Due(0, 0)];
    NothingListed(adjacency);
    ghost var result := Preorder(adjacency, [start], []);
    StackStarts(adjacency, start);
    while pending != []
      invariant Known(adjacency, pending) && LeadsTo(adjacency, pending, reachable, result)
      invariant forall m :: m in seen <==> m in reachable
      invariant Known(adjacency, reachable) && DepthFirst(adjacency, reachable)
      invariant |owed| == |pending| && (Owed(adjacency, reachable, pending, owed) || (reachable == [] && |pending| == 1))
      decreases |Unvisited(adjacency, reachable)|, |pending|
    {
      PopStep(adjacency, pending, reachable, result);
      var current := pending[|pending| - 1];
      ghost var before, due := pending, owed;
      pending := pending[..|pending| - 1];
      if current in seen {
        OwedSkip(adjacency, reachable, before, due);
        owed := due[..|pending|];
        continue;
      }
      VisitShrinks(adjacency, reachable, current);
      if reachable != [] {
        TopComesNext(adjacency, reachable, before, due);
      }
      DepthFirstNext(adjacency, reachable, current);
      OwedVisit(adjacency, reachable, before, due);
      owed := due[..|pending|] + Owing(|reachable|, |adjacency[current]|);
      seen := seen + {current};
      reachable := reachable + [current];
      pending := pending + Reversed(adjacency[current]);
    }
    StackEnds(adjacency, reachable, result);
    WalkCollects(adjacency, start);
  }

  lemma StackStarts(adjacency: Adjacency, start: nat)
    requires Closed(adjacency) && start in adjacency
    ensures LeadsTo(adjacency, [start], [], Preorder(adjacency, [start], []))
  {
    assert Reversed([start]) == [start];
  }

  lemma StackEnds(adjacency: Adjacency, reachable: seq<nat>, result: seq<nat>)
    requires Closed(adjacency) && LeadsTo(adjacency, [], reachable, result)
    ensures reachable == result
  {
  }

  lemma WalkCollects(adjacency: Adjacency, start: nat)
    requires Closed(adjacency) && start in adjacency
    ensures var all := Preorder(adjacency, [start], []);
            NoRepeats(all) && all[..1] == [start] && forall m :: m in all <==> ReachesAvoiding(adjacency, {}, start, m)
  {
    PreorderCollects(adjacency, [start], []);
    forall m
      ensures m in Preorder(adjacency, [start], []) <==> ReachesAvoiding(adjacency, {}, start, m)
    {
      assert Elements([]) == {};
      if ReachesAvoiding(adjacency, {}, start, m) {
        assert start in [start];
      }
    }
    StartIsFirst(adjacency, start);
  }

  lemma StartIsFirst(adjacency: Adjacency, start: nat)
    requires Closed(adjacency) && start in adjacency
    ensures [start] <= Preorder(adjacency, [start], [])
  {
    VisitShrinks(adjacency, [], start);
    var below := Preorder(adjacency, adjacency[start], [] + [start]);
    assert [] + [start] == [start] && [start] <= below && [start][1..] == [];
    assert Preorder(adjacency, [start], []) == below;
  }

  // ----- What the walk collects -----

  function Elements(s: seq<nat>): set<nat> {
    set x | x in s
  }

  ghost predicate WalkAvoiding(adjacency: Adjacency, avoid: set<nat>, walk: seq<nat>) {
    && |walk| > 0
    && (forall i :: 0 <= i < |walk| ==> walk[i] !in avoid && walk[i] in adjacency)
    && forall i :: 0 <= i < |walk| - 1 ==> walk[i + 1] in adjacency[walk[i]]
  }

  ghost predicate ReachesAvoiding(adjacency: Adjacency, avoid: set<nat>, from: nat, to: nat) {
    exists walk :: WalkAvoiding(adjacency, avoid, walk) && walk[0] == from && walk[|walk| - 1] == to
  }

  /** Something of a list leads to a module without passing through what is to be avoided. */
  ghost predicate Found(adjacency: Adjacency, avoid: set<nat>, todo: seq<nat>, m: nat) {
    exists a :: a in todo && ReachesAvoiding(adjacency, avoid, a, m)
  }

  lemma AvoidLess(adjacency: Adjacency, less: set<nat>, more: set<nat>, from: nat, to: nat)
    requires less <= more && ReachesAvoiding(adjacency, more, from, to)
    ensures ReachesAvoiding(adjacency, less, from, to)
  {
    var walk :| WalkAvoiding(adjacency, more, walk) && walk[0] == from && walk[|walk| - 1] == to;
    assert WalkAvoiding(adjacency, less, walk);
  }

  lemma StepAvoiding(adjacency: Adjacency, avoid: set<nat>, a: nat, b: nat, to: nat)
    requires a in adjacency && a !in avoid && b in adjacency[a] && ReachesAvoiding(adjacency, avoid, b, to)
    ensures ReachesAvoiding(adjacency, avoid, a, to)
  {
    var walk :| WalkAvoiding(adjacency, avoid, walk) && walk[0] == b && walk[|walk| - 1] == to;
    assert WalkAvoiding(adjacency, avoid, [a] + walk);
  }

  /** Whatever the walk adds can be reached without passing through what it had already reached. */
  lemma {:induction false} PreorderSound(adjacency: Adjacency, todo: seq<nat>, reached: seq<nat>, m: nat)
    requires Closed(adjacency) && Known(adjacency, todo) && m in Preorder(adjacency, todo, reached) && m !in reached
    ensures Found(adjacency, Elements(reached), todo, m)
    decreases |Unvisited(adjacency, reached)|, |todo|
  {
    if todo[0] in reached {
      PreorderSound(adjacency, todo[1..], reached, m);
      var a :| a in todo[1..] && ReachesAvoiding(adjacency, Elements(reached), a, m);
      assert a in todo;
    } else {
      var here := todo[0];
      assert here in todo;
      VisitShrinks(adjacency, reached, here);
      var below := Preorder(adjacency, adjacency[here], reached + [here]);
      ReachedShrinks(adjacency, reached + [here], below);
      if m == here {
        assert WalkAvoiding(adjacency, Elements(reached), [here]);
      } else if m in below {
        PreorderSound(adjacency, adjacency[here], reached + [here], m);
        var b :| b in adjacency[here] && ReachesAvoiding(adjacency, Elements(reached + [here]), b, m);
        AvoidLess(adjacency, Elements(reached), Elements(reached + [here]), b, m);
        StepAvoiding(adjacency, Elements(reached), here, b, m);
      } else {
        PreorderSound(adjacency, todo[1..], below, m);
        var a :| a in todo[1..] && ReachesAvoiding(adjacency, Elements(below), a, m);
        AvoidLess(adjacency, Elements(reached), Elements(below), a, m);
        assert a in todo;
      }
    }
  }

  lemma PrefixMembers(less: seq<nat>, more: seq<nat>)
    requires less <= more
    ensures forall m :: m in less ==> m in more
  {
    assert more == less + more[|less|..];
  }

  /** The walk has all it was asked to visit, and the dependencies of all it has added. */
  lemma {:induction false} PreorderCloses(adjacency: Adjacency, todo: seq<nat>, reached: seq<nat>)
    requires Closed(adjacency) && Known(adjacency, todo)
    ensures var all := Preorder(adjacency, todo, reached);
            && (forall m :: m in todo ==> m in all)
            && (forall m, d :: m in all && m !in reached && m in adjacency && d in adjacency[m] ==> d in all)
    decreases |Unvisited(adjacency, reached)|, |todo|
  {
    if todo != [] {
      if todo[0] in reached {
        PreorderCloses(adjacency, todo[1..], reached);
        var all := Preorder(adjacency, todo[1..], reached);
        PrefixMembers(reached, all);
        assert Preorder(adjacency, todo, reached) == all;
        assert forall m :: m in todo ==> m == todo[0] || m in todo[1..];
      } else {
        VisitShrinks(adjacency, reached, todo[0]);
        var below := Preorder(adjacency, adjacency[todo[0]], reached + [todo[0]]);
        ReachedShrinks(adjacency, reached + [todo[0]], below);
        PreorderCloses(adjacency, adjacency[todo[0]], reached + [todo[0]]);
        PreorderCloses(adjacency, todo[1..], below);
        var all := Preorder(adjacency, todo, reached);
        assert reached + [todo[0]] <= below <= all;
        PrefixMembers(reached + [todo[0]], below);
        PrefixMembers(below, all);
        assert todo[0] in reached + [todo[0]];
        assert forall m :: m in todo ==> m == todo[0] || m in todo[1..];
        forall m, d | m in all && m !in reached && m in adjacency && d in adjacency[m]
          ensures d in all
        {
          if m == todo[0] {
            assert d in adjacency[todo[0]] && d in below;
          } else if m in below {
            assert m !in reached + [todo[0]] && d in below;
          } else {
            assert d in Preorder(adjacency, todo[1..], below);
          }
        }
      }
    }
  }

  lemma {:induction false} WalkStays(adjacency: Adjacency, todo: seq<nat>, reached: seq<nat>, walk: seq<nat>)
    requires Closed(adjacency) && Known(adjacency, todo) && WalkAvoiding(adjacency, Elements(reached), walk)
    requires walk[0] in Preorder(adjacency, todo, reached)
    ensures walk[|walk| - 1] in Preorder(adjacency, todo, reached)
    decreases |walk|
  {
    if |walk| > 1 {
      PreorderCloses(adjacency, todo, reached);
      assert walk[0] !in reached && walk[1] in adjacency[walk[0]];
      assert WalkAvoiding(adjacency, Elements(reached), walk[1..]);
      WalkStays(adjacency, todo, reached, walk[1..]);
    }
  }

  /** The walk adds exactly what can be reached from its list without passing through what it had reached. */
  lemma PreorderCollects(adjacency: Adjacency, todo: seq<nat>, reached: seq<nat>)
    requires Closed(adjacency) && Known(adjacency, todo)
    ensures forall m :: m in Preorder(adjacency, todo, reached) <==> m in reached || Found(adjacency, Elements(reached), todo, m)
  {
    PreorderCloses(adjacency, todo, reached);
    forall m
      ensures m in Preorder(adjacency, todo, reached) <==> m in reached || Found(adjacency, Elements(reached), todo, m)
    {
      if m in Preorder(adjacency, todo, reached) && m !in reached {
        PreorderSound(adjacency, todo, reached, m);
      }
      if Found(adjacency, Elements(reached), todo, m) {
        var a :| a in todo && ReachesAvoiding(adjacency, Elements(reached), a, m);
        var walk :| WalkAvoiding(adjacency, Elements(reached), walk) && walk[0] == a && walk[|walk| - 1] == m;
        WalkStays(adjacency, todo, reached, walk);
      }
    }
  }
}
