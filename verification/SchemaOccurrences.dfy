/** What a type refers to, told by where in it an instantiation stands. */
module SchemaOccurrences {
  import opened Options
  import opened SchemaTypes
  import opened SchemaPlan

  /** The part of a type at a position its schema depends on: an array's elements, a dict's keys and values, a
      nominal's relevant arguments. */
  function Part(table: Table, t: Type, k: nat): Option<Type> {
    match t
    case Array(elem) => if k == 0 then Some(elem) else None
    case Dict(key, value) => if k == 0 then Some(key) else if k == 1 then Some(value) else None
    case Nominal(decl, args) => if k < |args| && Relevant(table, decl, k) then Some(args[k]) else None
    case _ => None
  }

  /** How many positions a type has. */
  function Width(t: Type): nat {
    match t
    case Array(_) => 1
    case Dict(_, _) => 2
    case Nominal(_, args) => |args|
    case _ => 0
  }

  /** An instantiation stands in a type where a path of positions leads. */
  predicate Occurs(table: Table, t: Type, path: seq<nat>, x: Type)
    decreases |path|
  {
    if path == [] then t.Nominal? && x == t
    else Part(table, t, path[0]).Some? && Occurs(table, Part(table, t, path[0]).value, path[1..], x)
  }

  /** From left to right, an instantiation before its arguments. */
  predicate Sooner(a: seq<nat>, b: seq<nat>) {
    if a == [] || b == [] then a == [] && b != []
    else a[0] < b[0] || (a[0] == b[0] && Sooner(a[1..], b[1..]))
  }

  ghost predicate InTurn(paths: seq<seq<nat>>) {
    forall i, j :: 0 <= i < j < |paths| ==> Sooner(paths[i], paths[j])
  }

  ghost predicate ReferredAt(table: Table, t: Type, path: seq<nat>, reference: Type) {
    exists x :: Occurs(table, t, path, x) && Canonical(table, x) == reference
  }

  /** The references are the canonical forms of what occurs at these paths, all that are within the first n positions. */
  ghost predicate ListedUpTo(table: Table, t: Type, n: nat, paths: seq<seq<nat>>, references: seq<Type>) {
    && |paths| == |references| && InTurn(paths)
    && (forall k :: 0 <= k < |paths| ==> ReferredAt(table, t, paths[k], references[k]))
    && (forall path, x :: Occurs(table, t, path, x) && (path == [] || path[0] < n) ==> path in paths)
    && (forall path :: path in paths ==> path == [] || path[0] < n)
  }

  function Under(k: nat, paths: seq<seq<nat>>): (under: seq<seq<nat>>)
    ensures |under| == |paths|
  {
    seq(|paths|, i requires 0 <= i < |paths| => [k] + paths[i])
  }

  lemma SkipPart(table: Table, t: Type, n: nat, paths: seq<seq<nat>>, references: seq<Type>)
    requires ListedUpTo(table, t, n, paths, references) && Part(table, t, n).None?
    ensures ListedUpTo(table, t, n + 1, paths, references)
  {
    hide Part, Sooner, ReferredAt, InTurn;
  }

  lemma UnderInTurn(paths: seq<seq<nat>>, n: nat, more: seq<seq<nat>>)
    requires InTurn(paths) && InTurn(more) && forall path :: path in paths ==> path == [] || path[0] < n
    ensures InTurn(paths + Under(n, more))
  {
    var all := paths + Under(n, more);
    forall i, j | 0 <= i < j < |all|
      ensures Sooner(all[i], all[j])
    {
      if i < |paths| {
        assert paths[i] in paths;
        if j < |paths| {
          assert Sooner(paths[i], paths[j]);
        } else {
          assert all[j][0] == n;
        }
      } else {
        var a, b := more[i - |paths|], more[j - |paths|];
        assert Sooner(a, b) && ([n] + a)[1..] == a && ([n] + b)[1..] == b;
      }
    }
  }

  lemma UnderOccurs(table: Table, t: Type, n: nat, path: seq<nat>, x: Type)
    requires Part(table, t, n).Some?
    ensures Occurs(table, t, [n] + path, x) <==> Occurs(table, Part(table, t, n).value, path, x)
  {
    assert ([n] + path)[1..] == path;
  }

  lemma AddPart(table: Table, t: Type, n: nat, paths: seq<seq<nat>>, references: seq<Type>, more: seq<seq<nat>>, rest: seq<Type>)
    requires ListedUpTo(table, t, n, paths, references) && Part(table, t, n).Some?
    requires Listed(table, Part(table, t, n).value, more, rest)
    ensures ListedUpTo(table, t, n + 1, paths + Under(n, more), references + rest)
  {
    hide Part, Sooner, InTurn, Occurs;
    var all, longer := paths + Under(n, more), references + rest;
    UnderInTurn(paths, n, more);
    forall k | 0 <= k < |all|
      ensures ReferredAt(table, t, all[k], longer[k])
    {
      if k >= |paths| {
        var i := k - |paths|;
        var x :| Occurs(table, Part(table, t, n).value, more[i], x) && Canonical(table, x) == rest[i];
        UnderOccurs(table, t, n, more[i], x);
      } else {
        assert ReferredAt(table, t, paths[k], references[k]);
      }
    }
    forall path, x | Occurs(table, t, path, x) && (path == [] || path[0] < n + 1)
      ensures path in all
    {
      if path != [] && path[0] == n {
        assert path == [n] + path[1..];
        UnderOccurs(table, t, n, path[1..], x);
        var i :| 0 <= i < |more| && more[i] == path[1..];
        assert all[|paths| + i] == path;
      } else {
        assert path in paths;
      }
    }
    forall path | path in all
      ensures path == [] || path[0] < n + 1
    {
      var k :| 0 <= k < |all| && all[k] == path;
      if k < |paths| {
        assert paths[k] in paths;
      }
    }
  }

  /** All that occurs in a type, in order. */
  ghost predicate Listed(table: Table, t: Type, paths: seq<seq<nat>>, references: seq<Type>) {
    && |paths| == |references| && InTurn(paths)
    && (forall k :: 0 <= k < |paths| ==> ReferredAt(table, t, paths[k], references[k]))
    && (forall path, x :: Occurs(table, t, path, x) ==> path in paths)
  }

  lemma AllPartsListed(table: Table, t: Type, paths: seq<seq<nat>>, references: seq<Type>)
    requires ListedUpTo(table, t, Width(t), paths, references)
    ensures Listed(table, t, paths, references)
  {
    hide Canonical, Sooner, ReferredAt, InTurn;
    forall path, x | Occurs(table, t, path, x)
      ensures path in paths
    {
      assert path != [] ==> Part(table, t, path[0]).Some?;
    }
  }

  lemma NoPartListed(table: Table, t: Type)
    ensures if t.Nominal? then ListedUpTo(table, t, 0, [[]], [Canonical(table, t)]) else ListedUpTo(table, t, 0, [], [])
  {
    if t.Nominal? {
      assert Occurs(table, t, [], t);
      assert ReferredAt(table, t, [[]][0], [Canonical(table, t)][0]);
    }
  }

  lemma {:induction false} ConcatOne(ss: seq<seq<Type>>, s: seq<Type>)
    ensures Concat(ss + [s]) == Concat(ss) + s
  {
    if ss == [] {
      assert ss + [s] == [s] && [s][1..] == [];
    } else {
      assert (ss + [s])[1..] == ss[1..] + [s];
      ConcatOne(ss[1..], s);
    }
  }

  /** The references of the first n arguments. */
  function ArgumentReferences(table: Table, decl: nat, args: seq<Type>, n: nat): seq<seq<Type>>
    requires n <= |args|
  {
    seq(n, i requires 0 <= i < n => if Relevant(table, decl, i) then References(table, args[i]) else [])
  }

  lemma ArgumentNext(table: Table, decl: nat, args: seq<Type>, n: nat)
    requires n < |args|
    ensures Concat(ArgumentReferences(table, decl, args, n + 1))
         == Concat(ArgumentReferences(table, decl, args, n)) + if Relevant(table, decl, n) then References(table, args[n]) else []
  {
    var last := if Relevant(table, decl, n) then References(table, args[n]) else [];
    assert ArgumentReferences(table, decl, args, n + 1) == ArgumentReferences(table, decl, args, n) + [last];
    ConcatOne(ArgumentReferences(table, decl, args, n), last);
  }

  /** A type refers to what occurs in it, each occurrence once and in order, canonically: repeats are kept. */
  lemma {:induction false} ReferencesAreOccurrences(table: Table, t: Type) returns (paths: seq<seq<nat>>)
    ensures Listed(table, t, paths, References(table, t))
    decreases t, 1
  {
    hide ListedUpTo, Listed, Canonical;
    NoPartListed(table, t);
    paths := [];
    match t {
      case Array(elem) =>
        var more := ReferencesAreOccurrences(table, elem);
        AddPart(table, t, 0, [], [], more, References(table, elem));
        paths := [] + Under(0, more);
        assert [] + References(table, elem) == References(table, t);
      case Dict(key, value) =>
        var keys := ReferencesAreOccurrences(table, key);
        var values := ReferencesAreOccurrences(table, value);
        AddPart(table, t, 0, [], [], keys, References(table, key));
        assert [] + References(table, key) == References(table, key);
        paths := [] + Under(0, keys);
        AddPart(table, t, 1, paths, References(table, key), values, References(table, value));
        paths := paths + Under(1, values);
      case Nominal(decl, args) =>
        paths := ArgumentsListed(table, t, |args|);
        assert References(table, t) == [Canonical(table, t)] + Concat(ArgumentReferences(table, decl, args, |args|));
      case _ =>
    }
    AllPartsListed(table, t, paths, References(table, t));
  }

  lemma {:induction false} ArgumentsListed(table: Table, t: Type, n: nat) returns (paths: seq<seq<nat>>)
    requires t.Nominal? && n <= |t.args|
    ensures ListedUpTo(table, t, n, paths, [Canonical(table, t)] + Concat(ArgumentReferences(table, t.decl, t.args, n)))
    decreases t, 0, n
  {
    hide ListedUpTo, Listed, Canonical, References;
    if n == 0 {
      NoPartListed(table, t);
      assert [Canonical(table, t)] + Concat(ArgumentReferences(table, t.decl, t.args, 0)) == [Canonical(table, t)];
      paths := [[]];
    } else {
      var m := n - 1;
      paths := ArgumentsListed(table, t, m);
      ArgumentNext(table, t.decl, t.args, m);
      var before := [Canonical(table, t)] + Concat(ArgumentReferences(table, t.decl, t.args, m));
      if Relevant(table, t.decl, m) {
        var more := ReferencesAreOccurrences(table, t.args[m]);
        AddPart(table, t, m, paths, before, more, References(table, t.args[m]));
        paths := paths + Under(m, more);
        assert before + References(table, t.args[m]) == [Canonical(table, t)] + Concat(ArgumentReferences(table, t.decl, t.args, n));
      } else {
        SkipPart(table, t, m, paths, before);
        assert before == [Canonical(table, t)] + Concat(ArgumentReferences(table, t.decl, t.args, n));
      }
    }
  }
}
