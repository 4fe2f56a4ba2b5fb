/** Which parameters of a declaration its schema depends on, and that canonical forms tell types apart exactly as
    far as their meanings do. */
module SchemaRelevance {
  import opened SchemaTypes

  ghost predicate MeansSame(table: Table, t: Type, t': Type) {
    forall depth: nat :: Inlined(table, t, depth) == Inlined(table, t', depth)
  }

  /** What an instantiation means tells what its i-th argument means. */
  ghost predicate Told(table: Table, decl: nat, i: nat) {
    && decl in table && i < |table[decl].params|
    && forall args, args' :: |args| == |args'| == |table[decl].params| && MeansSame(table, Nominal(decl, args), Nominal(decl, args')) ==>
                               MeansSame(table, args[i], args'[i])
  }

  // ----- Computing the relevant parameters -----

  /** Two tables that declare the same, whatever they say is relevant. */
  ghost predicate SameDeclarations(a: Table, b: Table) {
    a.Keys == b.Keys && forall d :: d in a ==> b[d] == a[d].(relevant := b[d].relevant)
  }

  /** Each declaration's parameters are distinct, and its fields are scoped to them. */
  predicate Declared(table: Table) {
    forall d :: d in table ==> Distinct(table[d].params) && forall i :: 0 <= i < |table[d].fields| ==> Scoped(table, table[d].fields[i], ParamSet(table[d]))
  }

  /** Everything said to be relevant is a parameter that can be told. */
  ghost predicate AllTold(table: Table, current: Table) {
    forall d :: d in current ==>
                  && current[d].relevant <= ParamSet(current[d])
                  && forall i :: 0 <= i < |current[d].params| && current[d].params[i] in current[d].relevant ==> Told(table, d, i)
  }

  /** The parameters of a declaration that the fields up to n show, by what is known to be relevant so far. */
  function Shown(current: Table, decl: nat, n: nat): set<string>
    requires decl in current && n <= |current[decl].fields|
  {
    if n == 0 then {} else Shown(current, decl, n - 1) + RelevantVariables(current, current[decl].fields[n - 1]) * ParamSet(current[decl])
  }

  /** The parameters not known to be relevant. */
  ghost function Missing(current: Table): set<(nat, string)> {
    set d, x | d in current && x in ParamSet(current[d]) - current[d].relevant :: (d, x)
  }

  /** Learning of one more parameter leaves fewer missing. */
  lemma MissingLess(current: Table, decl: nat, gained: set<string>)
    requires decl in current && gained <= ParamSet(current[decl]) && !(gained <= current[decl].relevant)
    ensures Missing(current[decl := current[decl].(relevant := current[decl].relevant + gained)]) < Missing(current)
  {
    var next := current[decl := current[decl].(relevant := current[decl].relevant + gained)];
    var x :| x in gained && x !in current[decl].relevant;
    assert (decl, x) in Missing(current) && (decl, x) !in Missing(next);
    assert forall d :: d in next ==> ParamSet(next[d]) == ParamSet(current[d]);
  }

  lemma {:induction false} ScopedTheSame(a: Table, b: Table, t: Type, vars: set<string>)
    requires SameDeclarations(a, b) && Scoped(a, t, vars)
    ensures Scoped(b, t, vars)
  {
    match t {
      case Array(elem) => ScopedTheSame(a, b, elem, vars);
      case Dict(key, value) =>
        ScopedTheSame(a, b, key, vars);
        ScopedTheSame(a, b, value, vars);
      case Nominal(decl, args) =>
        forall i | 0 <= i < |args|
          ensures Scoped(b, args[i], vars)
        {
          ScopedTheSame(a, b, args[i], vars);
        }
      case _ =>
    }
  }

  lemma {:induction false} RelevantAreScoped(table: Table, t: Type, vars: set<string>)
    requires Scoped(table, t, vars)
    ensures RelevantVariables(table, t) <= vars
  {
    match t {
      case Array(elem) => RelevantAreScoped(table, elem, vars);
      case Dict(key, value) =>
        RelevantAreScoped(table, key, vars);
        RelevantAreScoped(table, value, vars);
      case Nominal(decl, args) =>
        forall i | 0 <= i < |args|
          ensures RelevantVariables(table, args[i]) <= vars
        {
          RelevantAreScoped(table, args[i], vars);
        }
      case _ =>
    }
  }

  lemma PartsMeanSame(table: Table, t: Type, t': Type)
    requires MeansSame(table, t, t')
    ensures t.Array? && t'.Array? ==> MeansSame(table, t.elem, t'.elem)
    ensures t.Dict? && t'.Dict? ==> MeansSame(table, t.key, t'.key) && MeansSame(table, t.value, t'.value)
  {
    forall depth: nat
      ensures t.Array? && t'.Array? ==> Inlined(table, t.elem, depth) == Inlined(table, t'.elem, depth)
      ensures t.Dict? && t'.Dict? ==> Inlined(table, t.key, depth) == Inlined(table, t'.key, depth)
      ensures t.Dict? && t'.Dict? ==> Inlined(table, t.value, depth) == Inlined(table, t'.value, depth)
    {
      assert Inlined(table, t, depth) == Inlined(table, t', depth);
    }
  }

  /** What an occurrence in a relevant position is replaced by can be told from the whole. */
  lemma {:induction false} ToldThrough(table: Table, current: Table, t: Type, vars: set<string>, sigma: Substitution, tau: Substitution, x: string)
    requires SameDeclarations(table, current) && AllTold(table, current) && Scoped(table, t, vars)
    requires x in RelevantVariables(current, t) && x in sigma && x in tau
    requires MeansSame(table, Subst(sigma, t), Subst(tau, t))
    ensures MeansSame(table, sigma[x], tau[x])
  {
    hide MeansSame, Told, AllTold, ParamSet;
    PartsMeanSame(table, Subst(sigma, t), Subst(tau, t));
    match t {
      case Array(elem) => ToldThrough(table, current, elem, vars, sigma, tau, x);
      case Dict(key, value) =>
        if x in RelevantVariables(current, key) {
          ToldThrough(table, current, key, vars, sigma, tau, x);
        } else {
          ToldThrough(table, current, value, vars, sigma, tau, x);
        }
      case Nominal(decl, args) =>
        var i: nat :| i < |args| && Relevant(current, decl, i) && x in RelevantVariables(current, args[i]);
        ArgumentTold(table, current, decl, Subst(sigma, t).args, Subst(tau, t).args, i);
        ToldThrough(table, current, args[i], vars, sigma, tau, x);
      case _ =>
    }
  }

  lemma ArgumentTold(table: Table, current: Table, decl: nat, args: seq<Type>, args': seq<Type>, i: nat)
    requires SameDeclarations(table, current) && AllTold(table, current) && Relevant(current, decl, i)
    requires |args| == |args'| == |table[decl].params| && MeansSame(table, Nominal(decl, args), Nominal(decl, args'))
    ensures MeansSame(table, args[i], args'[i])
  {
    hide MeansSame;
    assert Told(table, decl, i);
  }

  /** Instantiations that mean the same have fields that mean the same. */
  lemma FieldsMeanSame(table: Table, decl: nat, args: seq<Type>, args': seq<Type>, f: nat)
    requires decl in table && |args| == |args'| == |table[decl].params| && f < |table[decl].fields|
    requires MeansSame(table, Nominal(decl, args), Nominal(decl, args'))
    ensures MeansSame(table, FieldTypes(table, decl, args)[f], FieldTypes(table, decl, args')[f])
  {
    forall depth: nat
      ensures Inlined(table, FieldTypes(table, decl, args)[f], depth) == Inlined(table, FieldTypes(table, decl, args')[f], depth)
    {
      var a, b := Inlined(table, Nominal(decl, args), depth + 1), Inlined(table, Nominal(decl, args'), depth + 1);
      assert a == b && a.fields[f] == b.fields[f];
    }
  }

  /** A parameter a field shows can be told, if all that is known to be relevant can. */
  lemma FieldTells(table: Table, current: Table, decl: nat, i: nat, f: nat)
    requires SameDeclarations(table, current) && AllTold(table, current) && Declared(table)
    requires decl in table && i < |table[decl].params| && f < |table[decl].fields|
    requires table[decl].params[i] in RelevantVariables(current, table[decl].fields[f])
    ensures Told(table, decl, i)
  {
    var d := table[decl];
    var x := d.params[i];
    forall args, args' | |args| == |args'| == |d.params| && MeansSame(table, Nominal(decl, args), Nominal(decl, args'))
      ensures MeansSame(table, args[i], args'[i])
    {
      FieldsMeanSame(table, decl, args, args', f);
      var sigma, tau := Binding(d.params, args), Binding(d.params, args');
      assert sigma[d.params[i]] == args[i] && tau[d.params[i]] == args'[i];
      ToldThrough(table, current, d.fields[f], ParamSet(d), sigma, tau, x);
    }
  }

  lemma {:induction false} ShownTold(table: Table, current: Table, decl: nat, n: nat, i: nat)
    requires SameDeclarations(table, current) && AllTold(table, current) && Declared(table)
    requires decl in table && i < |table[decl].params| && n <= |table[decl].fields|
    requires table[decl].params[i] in Shown(current, decl, n)
    ensures Told(table, decl, i)
  {
    if table[decl].params[i] in RelevantVariables(current, table[decl].fields[n - 1]) {
      FieldTells(table, current, decl, i, n - 1);
    } else {
      ShownTold(table, current, decl, n - 1, i);
    }
  }

  lemma {:induction false} ShownAreParams(current: Table, decl: nat, n: nat)
    requires decl in current && n <= |current[decl].fields|
    ensures Shown(current, decl, n) <= ParamSet(current[decl])
  {
    if n > 0 {
      ShownAreParams(current, decl, n - 1);
    }
  }

  lemma GainKeepsTold(table: Table, current: Table, decl: nat, gained: set<string>)
    requires SameDeclarations(table, current) && AllTold(table, current) && Declared(table)
    requires decl in table && gained == Shown(current, decl, |table[decl].fields|)
    ensures var next := current[decl := current[decl].(relevant := current[decl].relevant + gained)];
            SameDeclarations(table, next) && AllTold(table, next)
  {
    hide Told;
    ShownAreParams(current, decl, |table[decl].fields|);
    forall i | 0 <= i < |table[decl].params| && table[decl].params[i] in gained
      ensures Told(table, decl, i)
    {
      ShownTold(table, current, decl, |table[decl].fields|, i);
    }
  }

  /** Nothing more is shown by these declarations. */
  ghost predicate Settled(current: Table, decls: seq<nat>) {
    forall k :: 0 <= k < |decls| ==>
                  decls[k] in current && Shown(current, decls[k], |current[decls[k]].fields|) <= current[decls[k]].relevant
  }

  lemma {:induction false} ShownHas(current: Table, decl: nat, n: nat, f: nat)
    requires decl in current && f < n <= |current[decl].fields|
    ensures RelevantVariables(current, current[decl].fields[f]) * ParamSet(current[decl]) <= Shown(current, decl, n)
  {
    if f < n - 1 {
      ShownHas(current, decl, n - 1, f);
    }
  }

  /** When nothing more is shown, every variable in a schema position of a field is relevant. */
  lemma SettledIsChecked(table: Table, current: Table, decls: seq<nat>)
    requires SameDeclarations(table, current) && Declared(table) && AllTold(table, current)
    requires Settled(current, decls) && forall d :: d in table ==> d in decls
    ensures Checked(current)
  {
    hide Told, Shown, RelevantVariables;
    forall d, f | d in current && 0 <= f < |current[d].fields|
      ensures Scoped(current, current[d].fields[f], ParamSet(current[d]))
      ensures RelevantVariables(current, current[d].fields[f]) <= current[d].relevant
    {
      ScopedTheSame(table, current, table[d].fields[f], ParamSet(table[d]));
      RelevantAreScoped(current, current[d].fields[f], ParamSet(current[d]));
      ShownHas(current, d, |current[d].fields|, f);
      var k :| 0 <= k < |decls| && decls[k] == d;
    }
  }

  lemma NothingTold(table: Table)
    ensures var current: Table := map d | d in table :: table[d].(relevant := {}); SameDeclarations(table, current) && AllTold(table, current)
  {
  }

  /** Every parameter that can reach a field, found by going over the declarations until nothing changes. */
  method ComputeRelevantParams(table: Table, decls: seq<nat>) returns (current: Table)
    requires Declared(table) && (forall d :: d in decls <==> d in table)
    ensures SameDeclarations(table, current) && Checked(current)
    ensures forall d, i: nat :: d in current && i < |current[d].params| ==> (Relevant(current, d, i) <==> Told(current, d, i))
  {
    hide Told, Shown, Missing, Declared, AllTold, Checked, RelevantVariables;
    NothingTold(table);
    current := map d | d in table :: table[d].(relevant := {});
    var changed := true;
    while changed
      invariant SameDeclarations(table, current) && AllTold(table, current)
      invariant !changed ==> Settled(current, decls)
      decreases Missing(current), changed
    {
      changed := false;
      ghost var before := Missing(current);
      for k := 0 to |decls|
        invariant SameDeclarations(table, current) && AllTold(table, current)
        invariant if changed then Missing(current) < before else Missing(current) == before && Settled(current, decls[..k])
      {
        var d := decls[k];
        var gained := Gain(current, d);
        if !(gained <= current[d].relevant) {
          GainKeepsTold(table, current, d, gained);
          ShownAreParams(current, d, |current[d].fields|);
          MissingLess(current, d, gained);
          current := current[d := current[d].(relevant := current[d].relevant + gained)];
          changed := true;
        }
      }
    }
    assert decls[..|decls|] == decls;
    SettledIsChecked(table, current, decls);
    forall d, i: nat | d in current && i < |current[d].params|
      ensures Relevant(current, d, i) <==> Told(current, d, i)
    {
      RelevantIffTold(table, current, d, i);
    }
  }

  /** What a declaration's fields show. */
  method Gain(current: Table, decl: nat) returns (gained: set<string>)
    requires decl in current
    ensures gained == Shown(current, decl, |current[decl].fields|)
  {
    gained := {};
    for f := 0 to |current[decl].fields|
      invariant gained == Shown(current, decl, f)
    {
      gained := gained + RelevantVariables(current, current[decl].fields[f]) * ParamSet(current[decl]);
    }
  }

  /** What types mean does not depend on what is said to be relevant. */
  lemma {:induction false} InlinedTheSame(a: Table, b: Table, t: Type, depth: nat)
    requires SameDeclarations(a, b)
    ensures Inlined(a, t, depth) == Inlined(b, t, depth)
    decreases depth, t
  {
    match t {
      case Array(elem) => InlinedTheSame(a, b, elem, depth);
      case Dict(key, value) =>
        InlinedTheSame(a, b, key, depth);
        InlinedTheSame(a, b, value, depth);
      case Nominal(decl, args) =>
        if depth > 0 && decl in a && |args| == |a[decl].params| {
          var fields := FieldTypes(a, decl, args);
          assert fields == FieldTypes(b, decl, args);
          forall i | 0 <= i < |fields|
            ensures Inlined(a, fields[i], depth - 1) == Inlined(b, fields[i], depth - 1)
          {
            InlinedTheSame(a, b, fields[i], depth - 1);
          }
          assert Inlined(a, t, depth).fields == Inlined(b, t, depth).fields;
        }
      case _ =>
    }
  }

  /** Of a parameter that is not relevant, what it is instantiated with never shows. */
  lemma IrrelevantIsNotTold(table: Table, current: Table, decl: nat, i: nat)
    requires SameDeclarations(table, current) && Checked(current) && decl in table && i < |table[decl].params|
    requires !Relevant(current, decl, i)
    ensures !Told(table, decl, i)
  {
    var n := |table[decl].params|;
    var args, args' := seq(n, _ => Scalar(Int)), seq(n, j => if j == i then Scalar(Text) else Scalar(Int));
    assert Canonical(current, Nominal(decl, args)) == Canonical(current, Nominal(decl, args'));
    forall depth: nat
      ensures Inlined(table, Nominal(decl, args), depth) == Inlined(table, Nominal(decl, args'), depth)
    {
      SameCanonicalSameMeaning(current, Nominal(decl, args), Nominal(decl, args'), depth);
      InlinedTheSame(table, current, Nominal(decl, args), depth);
      InlinedTheSame(table, current, Nominal(decl, args'), depth);
    }
    assert Inlined(table, args[i], 0) != Inlined(table, args'[i], 0);
    assert !MeansSame(table, args[i], args'[i]);
  }

  lemma MeansTheSame(a: Table, b: Table, t: Type, t': Type)
    requires SameDeclarations(a, b)
    ensures MeansSame(a, t, t') <==> MeansSame(b, t, t')
  {
    forall depth: nat
      ensures Inlined(a, t, depth) == Inlined(b, t, depth) && Inlined(a, t', depth) == Inlined(b, t', depth)
    {
      InlinedTheSame(a, b, t, depth);
      InlinedTheSame(a, b, t', depth);
    }
  }

  lemma ToldTheSame(a: Table, b: Table, decl: nat, i: nat)
    requires SameDeclarations(a, b)
    ensures Told(a, decl, i) <==> Told(b, decl, i)
  {
    hide MeansSame;
    forall t, t'
      ensures MeansSame(a, t, t') <==> MeansSame(b, t, t')
    {
      MeansTheSame(a, b, t, t');
    }
  }

  /** A parameter is relevant exactly if what it is instantiated with can be told from what the instantiation means. */
  lemma RelevantIffTold(table: Table, current: Table, decl: nat, i: nat)
    requires SameDeclarations(table, current) && Checked(current) && AllTold(table, current)
    requires decl in current && i < |current[decl].params|
    ensures Relevant(current, decl, i) <==> Told(current, decl, i)
  {
    hide Told, Checked;
    ToldTheSame(table, current, decl, i);
    if !Relevant(current, decl, i) {
      IrrelevantIsNotTold(table, current, decl, i);
    }
  }

  // ----- Canonical forms are exactly as fine as meanings -----

  /** Relevant parameters are those that can be told. */
  ghost predicate Exact(table: Table) {
    Checked(table) && forall d, i: nat :: Relevant(table, d, i) ==> Told(table, d, i)
  }

  /** Well-scoped types have the same canonical form if and only if they mean the same at every depth: instantiations
      are shared exactly when nothing could tell them apart. */
  lemma {:induction false} SameCanonicalIffSameMeaning(table: Table, t: Type, t': Type, vars: set<string>)
    requires Exact(table) && Scoped(table, t, vars) && Scoped(table, t', vars)
    ensures Canonical(table, t) == Canonical(table, t') <==> MeansSame(table, t, t')
  {
    if Canonical(table, t) == Canonical(table, t') {
      forall depth: nat
        ensures Inlined(table, t, depth) == Inlined(table, t', depth)
      {
        SameCanonicalSameMeaning(table, t, t', depth);
      }
    } else if MeansSame(table, t, t') {
      SameMeaningSameCanonical(table, t, t', vars);
    }
  }

  lemma {:induction false} SameMeaningSameCanonical(table: Table, t: Type, t': Type, vars: set<string>)
    requires Exact(table) && Scoped(table, t, vars) && Scoped(table, t', vars) && MeansSame(table, t, t')
    ensures Canonical(table, t) == Canonical(table, t')
  {
    assert Inlined(table, t, 1) == Inlined(table, t', 1);
    match t {
      case Array(elem) =>
        PartsMeanSame(table, t, t');
        SameMeaningSameCanonical(table, elem, t'.elem, vars);
      case Dict(key, value) =>
        PartsMeanSame(table, t, t');
        SameMeaningSameCanonical(table, key, t'.key, vars);
        SameMeaningSameCanonical(table, value, t'.value, vars);
      case Nominal(decl, args) =>
        forall i: nat | i < |args| && Relevant(table, decl, i)
          ensures Canonical(table, args[i]) == Canonical(table, t'.args[i])
        {
          assert Told(table, decl, i);
          assert MeansSame(table, Nominal(decl, args), Nominal(decl, t'.args));
          SameMeaningSameCanonical(table, args[i], t'.args[i], vars);
        }
        assert Canonical(table, t).args == Canonical(table, t').args;
      case _ =>
    }
  }
}
