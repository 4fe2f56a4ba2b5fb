/** Decode plans: hoisted instantiations are emitted once and referenced by key, everything else in place. */
module SchemaDecode {
  import opened SchemaTypes
  import opened Graphs
  import opened SchemaPlan
  import opened SchemaKeys
  import T = SchemaTemplate

  // Emission terminates on every cyclic instantiation graph because each recursive instantiation is hoisted,
  // every reference is bound, and following references gives the inlined shape.

  datatype DecodeSchema =
    | ScalarDecode(kind: ScalarKind)
    | ArrayDecode(elem: DecodeSchema)
    | DictDecode(form: KeyForm, key: DecodeSchema, value: DecodeSchema)
    | NominalDecode(nominal: nat, fields: seq<DecodeSchema>)
    | RefDecode(ref: string)
    | ExcludedDecode(excluded: Type)  // exceptions, variables and unit, which the checker keeps out of wire types

  datatype Plan = Plan(hoisted: set<Type>, order: seq<Type>, keys: map<Type, string>)

  /** A plan over a closed graph of canonical instantiations that hoists every recursive one. */
  ghost predicate PlanFor(table: Table, g: Graph<Type>, plan: Plan) {
    && Checked(table) && Closed(g)
    && (forall h :: h in g ==> IsHandle(table, h) && Canonical(table, h) == h && g[h] == Elements(DirectReferences(table, h)))
    && Cyclic(g) <= plan.hoisted <= g.Keys
    && Distinct(plan.order) && Elements(plan.order) == plan.hoisted == plan.keys.Keys
    && (forall a, b :: a in plan.keys && b in plan.keys && a != b ==> plan.keys[a] != plan.keys[b])
  }

  /** A type whose references the graph holds, and which is fully applied wherever that shows. */
  ghost predicate Covers(table: Table, g: Graph<Type>, t: Type) {
    Elements(References(table, t)) <= g.Keys
  }

  lemma PlanHandle(table: Table, g: Graph<Type>, plan: Plan, h: Type)
    requires PlanFor(table, g, plan) && (h in g || h in plan.hoisted)
    ensures Checked(table) && h in g && IsHandle(table, h) && Canonical(table, h) == h && Closed(g) && g[h] == Elements(DirectReferences(table, h))
    ensures h in plan.hoisted ==> h in plan.keys
    ensures h !in plan.hoisted ==> !OnCycle(g, h)
  {
    hide IsHandle, Closed, OnCycle, Elements, DirectReferences, Distinct, Checked;
    assert h !in plan.hoisted ==> h !in Cyclic(g);
  }

  lemma CoversParts(table: Table, g: Graph<Type>, t: Type)
    requires Covers(table, g, t)
    ensures t.Array? ==> Covers(table, g, t.elem)
    ensures t.Dict? ==> Covers(table, g, t.key) && Covers(table, g, t.value)
    ensures t.Nominal? ==> Canonical(table, t) in g && Canonical(table, t) in Elements(References(table, t))
  {
    if t.Array? {
      assert References(table, t) == References(table, t.elem);
    } else if t.Dict? {
      ElementsAppend(References(table, t.key), References(table, t.value));
      assert References(table, t) == References(table, t.key) + References(table, t.value);
    } else if t.Nominal? {
      assert References(table, t)[0] == Canonical(table, t);
      assert Canonical(table, t) in Elements(References(table, t));
    }
  }

  /** The types of a handle's fields are covered, and reach strictly less unless the handle is recursive. */
  lemma FieldCovered(table: Table, g: Graph<Type>, h: Type, i: nat)
    requires h in g && IsHandle(table, h) && Closed(g) && g[h] == Elements(DirectReferences(table, h))
    requires i < |table[h.decl].fields|
    ensures Elements(References(table, FieldTypes(table, h.decl, h.args)[i])) <= g[h]
    ensures Covers(table, g, FieldTypes(table, h.decl, h.args)[i])
  {
    var fields := FieldTypes(table, h.decl, h.args);
    var lists := seq(|fields|, j requires 0 <= j < |fields| => References(table, fields[j]));
    forall x | x in References(table, fields[i])
      ensures x in g[h]
    {
      InConcat(lists, x);
      assert x in lists[i];
      assert x in DirectReferences(table, h);
    }
  }

  lemma FieldShrinks(table: Table, g: Graph<Type>, t: Type, h: Type, i: nat)
    requires h in g && IsHandle(table, h) && Closed(g) && g[h] == Elements(DirectReferences(table, h))
    requires i < |table[h.decl].fields| && !OnCycle(g, h) && h in Elements(References(table, t))
    ensures ReachSet(g, Elements(References(table, FieldTypes(table, h.decl, h.args)[i]))) < ReachSet(g, Elements(References(table, t)))
  {
    FieldCovered(table, g, h, i);
    ReachShrinks(g, Elements(References(table, t)), h, Elements(References(table, FieldTypes(table, h.decl, h.args)[i])));
  }

  lemma PartsReachLess(table: Table, g: Graph<Type>, t: Type)
    ensures t.Array? ==> ReachSet(g, Elements(References(table, t.elem))) <= ReachSet(g, Elements(References(table, t)))
    ensures t.Dict? ==> ReachSet(g, Elements(References(table, t.key))) <= ReachSet(g, Elements(References(table, t)))
    ensures t.Dict? ==> ReachSet(g, Elements(References(table, t.value))) <= ReachSet(g, Elements(References(table, t)))
  {
    if t.Array? {
      assert References(table, t) == References(table, t.elem);
    } else if t.Dict? {
      ElementsAppend(References(table, t.key), References(table, t.value));
      ReachSetMonotone(g, Elements(References(table, t.key)), Elements(References(table, t)));
      ReachSetMonotone(g, Elements(References(table, t.value)), Elements(References(table, t)));
    }
  }

  /** What is emitted for an occurrence of t. Each step into a nominal's fields strictly shrinks the set of
      instantiations still reachable, since recursive ones are references. */
  ghost function Emitted(table: Table, g: Graph<Type>, plan: Plan, t: Type): DecodeSchema
    requires PlanFor(table, g, plan) && Covers(table, g, t)
    decreases ReachSet(g, Elements(References(table, t))), t, 1
  {
    CoversParts(table, g, t);
    PartsReachLess(table, g, t);
    match t
    case Scalar(kind) => ScalarDecode(kind)
    case Array(elem) => ArrayDecode(Emitted(table, g, plan, elem))
    case Dict(key, value) => DictDecode(KeyFormOf(table, key), Emitted(table, g, plan, key), Emitted(table, g, plan, value))
    case Nominal(_, _) =>
      var h := Canonical(table, t);
      if h in plan.hoisted then RefDecode(plan.keys[h])
      else
        NominalDecode(h.decl, seq(|table[h.decl].fields|, i requires 0 <= i < |table[h.decl].fields| =>
          (FieldCovered(table, g, h, i); FieldShrinks(table, g, t, h, i);
           Emitted(table, g, plan, FieldTypes(table, h.decl, h.args)[i]))))
    case _ => ExcludedDecode(t)
  }

  /** A handle's own body, never a reference to itself: what its definition holds. */
  ghost function Body(table: Table, g: Graph<Type>, plan: Plan, h: Type): (body: DecodeSchema)
    requires PlanFor(table, g, plan) && h in g
    ensures body.NominalDecode? && body.nominal == h.decl && |body.fields| == |table[h.decl].fields|
  {
    NominalDecode(h.decl, seq(|table[h.decl].fields|, i requires 0 <= i < |table[h.decl].fields| =>
      (FieldCovered(table, g, h, i); Emitted(table, g, plan, FieldTypes(table, h.decl, h.args)[i]))))
  }

  lemma BodyField(table: Table, g: Graph<Type>, plan: Plan, h: Type, i: nat)
    requires PlanFor(table, g, plan) && h in g && i < |table[h.decl].fields|
    ensures Covers(table, g, FieldTypes(table, h.decl, h.args)[i])
    ensures Body(table, g, plan, h).fields[i] == Emitted(table, g, plan, FieldTypes(table, h.decl, h.args)[i])
  {
    FieldCovered(table, g, h, i);
    hide Emitted, FieldTypes, Covers, PlanFor;
  }

  ghost function Definitions(table: Table, g: Graph<Type>, plan: Plan): map<string, DecodeSchema>
    requires PlanFor(table, g, plan)
  {
    map h | h in plan.hoisted :: plan.keys[h] := Body(table, g, plan, h)
  }

  lemma DefinitionAt(table: Table, g: Graph<Type>, plan: Plan, h: Type)
    requires PlanFor(table, g, plan) && h in plan.hoisted
    ensures plan.keys[h] in Definitions(table, g, plan) && Definitions(table, g, plan)[plan.keys[h]] == Body(table, g, plan, h)
  {
    hide Body;
  }

  lemma {:induction false} EmittedNominal(table: Table, g: Graph<Type>, plan: Plan, t: Type)
    requires PlanFor(table, g, plan) && Covers(table, g, t) && t.Nominal?
    ensures Canonical(table, t) in g
    ensures Emitted(table, g, plan, t) ==
            if Canonical(table, t) in plan.hoisted then RefDecode(plan.keys[Canonical(table, t)])
            else Body(table, g, plan, Canonical(table, t))
  {
    CoversParts(table, g, t);
    var h := Canonical(table, t);
    if h !in plan.hoisted {
      assert Emitted(table, g, plan, t).fields == Body(table, g, plan, h).fields;
    }
  }

  /** An occurrence is emitted the same from its canonical form. */
  lemma {:induction false} EmittedOfCanonical(table: Table, g: Graph<Type>, plan: Plan, t: Type)
    requires PlanFor(table, g, plan) && Covers(table, g, t)
    ensures Covers(table, g, Canonical(table, t))
    ensures Emitted(table, g, plan, Canonical(table, t)) == Emitted(table, g, plan, t)
  {
    ReferencesOfCanonical(table, t);
    hide PlanFor, References, Body;
    CoversParts(table, g, t);
    match t {
      case Array(elem) => EmittedOfCanonical(table, g, plan, elem);
      case Dict(key, value) =>
        EmittedOfCanonical(table, g, plan, key);
        EmittedOfCanonical(table, g, plan, value);
        assert KeyFormOf(table, Canonical(table, key)) == KeyFormOf(table, key);
      case Nominal(_, _) =>
        CanonicalIdempotent(table, t);
        EmittedNominal(table, g, plan, t);
        EmittedNominal(table, g, plan, Canonical(table, t));
      case _ =>
    }
  }

  // ----- Every reference is bound -----

  function RefKeys(d: DecodeSchema): set<string> {
    match d
    case ArrayDecode(elem) => RefKeys(elem)
    case DictDecode(_, key, value) => RefKeys(key) + RefKeys(value)
    case NominalDecode(_, fields) => set i, k | 0 <= i < |fields| && k in RefKeys(fields[i]) :: k
    case RefDecode(ref) => {ref}
    case _ => {}
  }

  lemma {:induction false} EmittedBound(table: Table, g: Graph<Type>, plan: Plan, t: Type)
    requires PlanFor(table, g, plan) && Covers(table, g, t)
    ensures RefKeys(Emitted(table, g, plan, t)) <= Definitions(table, g, plan).Keys
    decreases ReachSet(g, Elements(References(table, t))), t, 1
  {
    hide PlanFor, Covers, Definitions, ReachSet, References, Elements, Body;
    CoversParts(table, g, t);
    PartsReachLess(table, g, t);
    match t {
      case Array(elem) => EmittedBound(table, g, plan, elem);
      case Dict(key, value) =>
        EmittedBound(table, g, plan, key);
        EmittedBound(table, g, plan, value);
      case Nominal(_, _) => NominalBound(table, g, plan, t);
      case _ =>
    }
  }

  ghost predicate FieldBound(table: Table, g: Graph<Type>, plan: Plan, h: Type, i: nat)
    requires PlanFor(table, g, plan) && h in g && i < |table[h.decl].fields|
  {
    RefKeys(Body(table, g, plan, h).fields[i]) <= Definitions(table, g, plan).Keys
  }

  lemma BodyBound(table: Table, g: Graph<Type>, plan: Plan, h: Type)
    requires PlanFor(table, g, plan) && h in g
    requires forall i: nat :: i < |table[h.decl].fields| ==> FieldBound(table, g, plan, h, i)
    ensures RefKeys(Body(table, g, plan, h)) <= Definitions(table, g, plan).Keys
  {
    hide PlanFor, Definitions, Body;
    var fields := Body(table, g, plan, h).fields;
    forall i: nat, k | i < |fields| && k in RefKeys(fields[i])
      ensures k in Definitions(table, g, plan).Keys
    {
      assert FieldBound(table, g, plan, h, i);
    }
  }

  lemma {:induction false} NominalBound(table: Table, g: Graph<Type>, plan: Plan, t: Type)
    requires PlanFor(table, g, plan) && Covers(table, g, t) && t.Nominal?
    ensures RefKeys(Emitted(table, g, plan, t)) <= Definitions(table, g, plan).Keys
    decreases ReachSet(g, Elements(References(table, t))), t, 0
  {
    hide PlanFor, Covers, Emitted, Definitions, Body, ReachSet, Closed, OnCycle, References, DirectReferences, Elements, FieldTypes;
    CoversParts(table, g, t);
    EmittedNominal(table, g, plan, t);
    var h := Canonical(table, t);
    PlanHandle(table, g, plan, h);
    if h in plan.hoisted {
      DefinitionAt(table, g, plan, h);
    } else {
      forall i: nat | i < |table[h.decl].fields|
        ensures FieldBound(table, g, plan, h, i)
      {
        BodyField(table, g, plan, h, i);
        FieldShrinks(table, g, t, h, i);
        EmittedBound(table, g, plan, FieldTypes(table, h.decl, h.args)[i]);
      }
      BodyBound(table, g, plan, h);
    }
  }

  /** Every reference in a definition is bound too, so following references never falls off the plan. */
  lemma {:induction false} DefinitionsBound(table: Table, g: Graph<Type>, plan: Plan, h: Type)
    requires PlanFor(table, g, plan) && h in plan.hoisted
    ensures RefKeys(Body(table, g, plan, h)) <= Definitions(table, g, plan).Keys
  {
    PlanHandle(table, g, plan, h);
    hide PlanFor, Emitted, Definitions, Body;
    forall i: nat | i < |table[h.decl].fields|
      ensures FieldBound(table, g, plan, h, i)
    {
      BodyField(table, g, plan, h, i);
      EmittedBound(table, g, plan, FieldTypes(table, h.decl, h.args)[i]);
    }
    BodyBound(table, g, plan, h);
  }

  // ----- Meaning -----

  /** The shape a decode schema describes, following references, cut at a number of nominal levels. */
  function Unfolded(definitions: map<string, DecodeSchema>, d: DecodeSchema, depth: nat): Shape
    decreases depth, d
  {
    match d
    case ScalarDecode(kind) => ScalarShape(kind)
    case ArrayDecode(elem) => ArrayShape(Unfolded(definitions, elem, depth))
    case DictDecode(form, key, value) => DictShape(form, Unfolded(definitions, key, depth), Unfolded(definitions, value, depth))
    case NominalDecode(nominal, fields) =>
      if depth == 0 then Cut
      else NominalShape(nominal, seq(|fields|, i requires 0 <= i < |fields| => Unfolded(definitions, fields[i], depth - 1)))
    case RefDecode(ref) =>
      if depth == 0 || ref !in definitions || !definitions[ref].NominalDecode? then Cut
      else
        var fields := definitions[ref].fields;
        NominalShape(definitions[ref].nominal, seq(|fields|, i requires 0 <= i < |fields| => Unfolded(definitions, fields[i], depth - 1)))
    case ExcludedDecode(t) =>
      match t
      case Exception(exception) => ExceptionShape(exception)
      case Variable(name) => VariableShape(name)
      case _ => UnitShape
  }

  predicate FieldUnfolds(table: Table, definitions: map<string, DecodeSchema>, h: Type, body: DecodeSchema, depth: nat, i: nat)
    requires IsHandle(table, h) && body.NominalDecode? && i < |body.fields| == |table[h.decl].fields| && depth > 0
  {
    Unfolded(definitions, body.fields[i], depth - 1) == Inlined(table, FieldTypes(table, h.decl, h.args)[i], depth - 1)
  }

  lemma {:induction false} BodyUnfolds(table: Table, definitions: map<string, DecodeSchema>, h: Type, body: DecodeSchema,
                                       depth: nat)
    requires IsHandle(table, h) && body.NominalDecode? && body.nominal == h.decl && |body.fields| == |table[h.decl].fields|
    requires depth > 0
    requires forall i: nat :: i < |body.fields| ==> FieldUnfolds(table, definitions, h, body, depth, i)
    ensures Unfolded(definitions, body, depth) == Inlined(table, h, depth)
  {
    var left, right := Unfolded(definitions, body, depth), Inlined(table, h, depth);
    forall i: nat | i < |body.fields|
      ensures left.fields[i] == right.fields[i]
    {
      assert FieldUnfolds(table, definitions, h, body, depth, i);
    }
    assert left.fields == right.fields;
  }

  /** Unfolding the emitted schema to any depth gives the purely inlined derivation to that depth. */
  lemma {:induction false} EmittedKeepsMeaning(table: Table, g: Graph<Type>, plan: Plan, t: Type, depth: nat)
    requires PlanFor(table, g, plan) && Covers(table, g, t)
    ensures Unfolded(Definitions(table, g, plan), Emitted(table, g, plan, t), depth) == Inlined(table, t, depth)
    decreases depth, 2, t
  {
    hide PlanFor, Covers, Definitions, Body;
    CoversParts(table, g, t);
    match t {
      case Array(elem) => EmittedKeepsMeaning(table, g, plan, elem, depth);
      case Dict(key, value) =>
        EmittedKeepsMeaning(table, g, plan, key, depth);
        EmittedKeepsMeaning(table, g, plan, value, depth);
      case Nominal(_, _) => NominalKeepsMeaning(table, g, plan, t, depth);
      case _ =>
    }
  }

  lemma {:induction false} NominalKeepsMeaning(table: Table, g: Graph<Type>, plan: Plan, t: Type, depth: nat)
    requires PlanFor(table, g, plan) && Covers(table, g, t) && t.Nominal?
    ensures Unfolded(Definitions(table, g, plan), Emitted(table, g, plan, t), depth) == Inlined(table, t, depth)
    decreases depth, 1
  {
    hide PlanFor, Covers, Definitions, Emitted, Body;
    CoversParts(table, g, t);
    var h := Canonical(table, t);
    PlanHandle(table, g, plan, h);
    EmittedNominal(table, g, plan, t);
    CanonicalKeepsMeaning(table, t, depth);
    if depth > 0 {
      hide Unfolded, Inlined;
      BodyKeepsMeaning(table, g, plan, h, depth);
      if h in plan.hoisted {
        RefUnfolds(table, g, plan, h, depth);
      }
    }
  }

  lemma {:induction false} BodyKeepsMeaning(table: Table, g: Graph<Type>, plan: Plan, h: Type, depth: nat)
    requires PlanFor(table, g, plan) && h in g && depth > 0
    ensures Unfolded(Definitions(table, g, plan), Body(table, g, plan, h), depth) == Inlined(table, h, depth)
    decreases depth, 0
  {
    var definitions, body := Definitions(table, g, plan), Body(table, g, plan, h);
    forall i: nat | i < |body.fields|
      ensures FieldUnfolds(table, definitions, h, body, depth, i)
    {
      FieldCovered(table, g, h, i);
      EmittedKeepsMeaning(table, g, plan, FieldTypes(table, h.decl, h.args)[i], depth - 1);
    }
    BodyUnfolds(table, definitions, h, body, depth);
  }

  lemma {:induction false} RefUnfolds(table: Table, g: Graph<Type>, plan: Plan, h: Type, depth: nat)
    requires PlanFor(table, g, plan) && h in plan.hoisted && depth > 0
    ensures Unfolded(Definitions(table, g, plan), RefDecode(plan.keys[h]), depth)
         == Unfolded(Definitions(table, g, plan), Body(table, g, plan, h), depth)
  {
    hide PlanFor, Definitions, Emitted, Covers, IsHandle, Closed, References, FieldTypes, Body;
    PlanHandle(table, g, plan, h);
    DefinitionAt(table, g, plan, h);
    var definitions, body := Definitions(table, g, plan), Body(table, g, plan, h);
    assert Unfolded(definitions, RefDecode(plan.keys[h]), depth).fields == Unfolded(definitions, body, depth).fields;
  }

  // ----- The emitter -----

  lemma PrefixNext<T>(s: seq<T>, n: nat)
    requires n < |s|
    ensures s[..n + 1] == s[..n] + [s[n]]
  {
  }

  class DecodeEmitter {
    const table: Table
    const plan: Plan
    ghost const g: Graph<Type>
    var memo: map<Type, DecodeSchema>

    /** The memo holds canonical types with the schema an occurrence of them is given. */
    ghost predicate Valid()
      reads this
    {
      && PlanFor(table, g, plan)
      && forall t :: t in memo ==> Covers(table, g, t) && memo[t] == Emitted(table, g, plan, t)
    }

    constructor (table: Table, plan: Plan, ghost g: Graph<Type>)
      requires PlanFor(table, g, plan)
      ensures this.table == table && this.plan == plan && this.g == g && Valid() && memo == map[]
    {
      this.table, this.plan, this.g, this.memo := table, plan, g, map[];
    }

    /** Emit an occurrence once per canonical type: a reference when hoisted, its body otherwise. */
    method Emit(typ: Type) returns (d: DecodeSchema)
      requires Valid() && Covers(table, g, typ)
      modifies this
      ensures Valid() && d == Emitted(table, g, plan, typ)
      decreases false, ReachSet(g, Elements(References(table, typ))), T.Size(typ), 2
    {
      var schemaType := Canonical(table, typ);
      EmittedOfCanonical(table, g, plan, typ);
      ReferencesOfCanonical(table, typ);
      T.CanonicalSize(table, typ);
      if schemaType in memo {
        return memo[schemaType];
      }
      if schemaType in plan.hoisted {
        CoversParts(table, g, typ);
        EmittedNominal(table, g, plan, typ);
        d := RefDecode(plan.keys[schemaType]);
      } else {
        CanonicalIdempotent(table, typ);
        d := EmitBody(schemaType);
      }
      memo := memo[schemaType := d];
    }

    /** Emit a canonical type's own body. */
    method EmitBody(typ: Type) returns (d: DecodeSchema)
      requires Valid() && Covers(table, g, typ) && Canonical(table, typ) == typ
      modifies this
      ensures Valid()
      ensures d == if typ.Nominal? then Body(table, g, plan, typ) else Emitted(table, g, plan, typ)
      decreases typ in plan.hoisted, ReachSet(g, Elements(References(table, typ))), T.Size(typ), 1
    {
      CoversParts(table, g, typ);
      PartsReachLess(table, g, typ);
      match typ {
        case Scalar(kind) => d := ScalarDecode(kind);
        case Array(elem) =>
          var inner := Emit(elem);
          d := ArrayDecode(inner);
        case Dict(key, value) =>
          var keySchema := Emit(key);
          var valueSchema := Emit(value);
          d := DictDecode(KeyFormOf(table, key), keySchema, valueSchema);
        case Nominal(decl, _) =>
          var fields := EmitFields(typ);
          d := NominalDecode(decl, fields);
        case _ => d := ExcludedDecode(typ);
      }
    }

    method EmitFields(typ: Type) returns (fields: seq<DecodeSchema>)
      requires Valid() && Covers(table, g, typ) && Canonical(table, typ) == typ && typ.Nominal?
      requires typ in g
      modifies this
      ensures Valid() && fields == Body(table, g, plan, typ).fields
      decreases typ in plan.hoisted, ReachSet(g, Elements(References(table, typ))), T.Size(typ), 0
    {
      hide PlanFor, Covers, Closed, OnCycle, ReachSet, References, Emitted, Body, Elements;
      PlanHandle(table, g, plan, typ);
      CoversParts(table, g, typ);
      var types := FieldTypes(table, typ.decl, typ.args);
      fields := [];
      for i := 0 to |types|
        invariant Valid() && fields == Body(table, g, plan, typ).fields[..i]
      {
        BodyField(table, g, plan, typ, i);
        PrefixNext(Body(table, g, plan, typ).fields, i);
        if typ !in plan.hoisted {
          FieldShrinks(table, g, typ, typ, i);
        }
        var field := Emit(types[i]);
        fields := fields + [field];
      }
    }
  }

  // ----- From a type to its decode plan -----

  lemma ExpansionCloses(table: Table, universe: set<Type>, starts: seq<Type>, order: seq<Type>, g: Graph<Type>,
                        occurrences: multiset<Type>)
    requires Universe(table, universe) && Elements(starts) <= universe
    requires IsExpansion(table, universe, starts, order, g, occurrences)
    ensures Closed(g) && Elements(starts) <= g.Keys
  {
    var whole := ReferenceGraph(table, universe);
    forall a, b | a in g && b in g[a]
      ensures b in g
    {
      var s :| s in Elements(starts) && Reaches(whole, s, a);
      ReachesItself(whole, b);
      ReachesStep(whole, a, b, b);
      ReachesThen(whole, s, a, b);
      assert ReachedFrom(whole, Elements(starts), b);
    }
    forall s | s in Elements(starts)
      ensures s in g
    {
      ReachesItself(whole, s);
      assert ReachedFrom(whole, Elements(starts), s);
    }
  }

  /** Whatever a reference refers to is itself listed with it. */
  lemma {:induction false} ReferencesNest(table: Table, t: Type, x: Type)
    requires x in References(table, t)
    ensures Elements(References(table, x)) <= Elements(References(table, t))
  {
    match t {
      case Array(elem) => ReferencesNest(table, elem, x);
      case Dict(key, value) =>
        if x in References(table, key) {
          ReferencesNest(table, key, x);
        } else {
          ReferencesNest(table, value, x);
        }
      case Nominal(decl, args) =>
        if x == Canonical(table, t) {
          ReferencesOfCanonical(table, t);
        } else {
          var lists := seq(|args|, i requires 0 <= i < |args| => if Relevant(table, decl, i) then References(table, args[i]) else []);
          InConcat(lists, x);
          var i :| 0 <= i < |lists| && x in lists[i];
          ReferencesNest(table, args[i], x);
          forall y | y in References(table, x)
            ensures y in References(table, t)
          {
            assert y in Elements(References(table, args[i]));
            assert y in lists[i];
            InConcat(lists, y);
          }
        }
      case _ =>
    }
  }

  /** What a field refers to is covered: its own references are listed among the field's. */
  lemma FieldReferenceCovered(table: Table, g: Graph<Type>, a: Type, h: Type)
    requires a in g && IsHandle(table, a) && Closed(g) && g[a] == Elements(DirectReferences(table, a)) && h in g[a]
    ensures Covers(table, g, h)
  {
    var fields := FieldTypes(table, a.decl, a.args);
    var lists := seq(|fields|, i requires 0 <= i < |fields| => References(table, fields[i]));
    InConcat(lists, h);
    var i :| 0 <= i < |lists| && h in lists[i];
    ReferencesNest(table, fields[i], h);
    FieldCovered(table, g, a, i);
  }

  lemma HandleCovered(table: Table, universe: set<Type>, typ: Type, order: seq<Type>, g: Graph<Type>,
                      occurrences: multiset<Type>, h: Type)
    requires Universe(table, universe) && Elements(References(table, typ)) <= universe
    requires IsExpansion(table, universe, References(table, typ), order, g, occurrences) && h in g
    ensures Covers(table, g, h)
  {
    ExpansionCloses(table, universe, References(table, typ), order, g, occurrences);
    if h in Elements(References(table, typ)) {
      ReferencesNest(table, typ, h);
    } else {
      var a := ReachSetStep(ReferenceGraph(table, universe), Elements(References(table, typ)), h);
      FieldReferenceCovered(table, g, a, h);
    }
  }

  lemma ExpansionCovers(table: Table, universe: set<Type>, typ: Type, order: seq<Type>, g: Graph<Type>, occurrences: multiset<Type>)
    requires Universe(table, universe) && Elements(References(table, typ)) <= universe
    requires IsExpansion(table, universe, References(table, typ), order, g, occurrences)
    ensures Covers(table, g, typ) && forall h :: h in g ==> Covers(table, g, h)
  {
    ExpansionCloses(table, universe, References(table, typ), order, g, occurrences);
    forall h | h in g
      ensures Covers(table, g, h)
    {
      HandleCovered(table, universe, typ, order, g, occurrences, h);
    }
  }

  /** The expanded graph with its recursive and shared instantiations hoisted and keyed is a plan. */
  lemma ExpansionIsPlan(table: Table, universe: set<Type>, starts: seq<Type>, order: seq<Type>, g: Graph<Type>,
                        occurrences: multiset<Type>, plan: Plan)
    requires Checked(table) && Universe(table, universe) && Elements(starts) <= universe
    requires IsExpansion(table, universe, starts, order, g, occurrences)
    requires plan.hoisted == Hoisted(g, occurrences)
    requires Elements(plan.order) == plan.hoisted == plan.keys.Keys && Distinct(plan.order)
    requires forall a, b :: a in plan.keys && b in plan.keys && a != b ==> plan.keys[a] != plan.keys[b]
    ensures PlanFor(table, g, plan)
  {
    hide Checked, Closed, Elements, DirectReferences, IsHandle, Canonical, Tally, Distinct, OnCycle, ReachSet, ReferenceGraph;
    ExpansionCloses(table, universe, starts, order, g, occurrences);
  }

  function DefinitionsTable(defs: seq<(string, DecodeSchema)>): map<string, DecodeSchema> {
    map i | 0 <= i < |defs| && DistinctKeys(defs) :: defs[i].0 := defs[i].1
  }

  predicate DistinctKeys(defs: seq<(string, DecodeSchema)>) {
    forall i, j :: 0 <= i < j < |defs| ==> defs[i].0 != defs[j].0
  }

  lemma RootReferencesOfOne(table: Table, typ: Type)
    ensures RootReferences(table, [typ]) == References(table, typ)
  {
    var lists := seq(1, i requires 0 <= i < 1 => References(table, [typ][i]));
    assert lists == [References(table, typ)];
    assert Concat(lists[1..]) == [];
  }

  /** The entries of a plan's definitions, in the order they are listed. */
  ghost predicate Lists(table: Table, g: Graph<Type>, plan: Plan, defs: seq<(string, DecodeSchema)>, n: nat)
    requires PlanFor(table, g, plan) && n <= |plan.order|
  {
    && (forall i :: 0 <= i < |plan.order| ==> plan.order[i] in g && plan.order[i] in plan.keys)
    && |defs| == n
    && forall i :: 0 <= i < n ==> defs[i].0 == plan.keys[plan.order[i]] && defs[i].1 == Body(table, g, plan, plan.order[i])
  }

  lemma OrderInGraph(table: Table, g: Graph<Type>, plan: Plan)
    requires PlanFor(table, g, plan)
    ensures forall i :: 0 <= i < |plan.order| ==> plan.order[i] in g && plan.order[i] in plan.keys
  {
    forall i | 0 <= i < |plan.order|
      ensures plan.order[i] in plan.hoisted
    {
      assert plan.order[i] in Elements(plan.order);
    }
  }

  lemma ListedKeysDistinct(table: Table, g: Graph<Type>, plan: Plan, defs: seq<(string, DecodeSchema)>)
    requires PlanFor(table, g, plan) && Lists(table, g, plan, defs, |plan.order|)
    ensures DistinctKeys(defs)
  {
  }

  lemma DefinitionsAre(table: Table, g: Graph<Type>, plan: Plan, defs: seq<(string, DecodeSchema)>)
    requires PlanFor(table, g, plan) && Lists(table, g, plan, defs, |plan.order|)
    ensures DistinctKeys(defs) && DefinitionsTable(defs) == Definitions(table, g, plan)
  {
    ListedKeysDistinct(table, g, plan, defs);
    forall i: nat | i < |defs|
      ensures Holds(defs, i, Definitions(table, g, plan))
    {
      ListedIsDefined(table, g, plan, defs, i);
    }
    forall k | k in Definitions(table, g, plan)
      ensures k in DefinitionsTable(defs)
    {
      DefinedIsListed(table, g, plan, defs, k);
    }
    TableIs(defs, Definitions(table, g, plan));
  }

  ghost predicate Holds(defs: seq<(string, DecodeSchema)>, i: nat, table: map<string, DecodeSchema>)
    requires i < |defs|
  {
    defs[i].0 in table && table[defs[i].0] == defs[i].1
  }

  lemma EntryOf(defs: seq<(string, DecodeSchema)>, k: string) returns (i: nat)
    requires DistinctKeys(defs) && k in DefinitionsTable(defs)
    ensures i < |defs| && defs[i].0 == k && DefinitionsTable(defs)[k] == defs[i].1
  {
    i :| i < |defs| && defs[i].0 == k;
  }

  lemma TableIs(defs: seq<(string, DecodeSchema)>, table: map<string, DecodeSchema>)
    requires DistinctKeys(defs) && forall i: nat :: i < |defs| ==> Holds(defs, i, table)
    requires forall k :: k in table ==> k in DefinitionsTable(defs)
    ensures DefinitionsTable(defs) == table
  {
    hide DistinctKeys, DefinitionsTable;
    forall k | k in DefinitionsTable(defs)
      ensures k in table && table[k] == DefinitionsTable(defs)[k]
    {
      var i := EntryOf(defs, k);
      assert Holds(defs, i, table);
    }
  }

  lemma ListedIsDefined(table: Table, g: Graph<Type>, plan: Plan, defs: seq<(string, DecodeSchema)>, i: nat)
    requires PlanFor(table, g, plan) && Lists(table, g, plan, defs, |plan.order|) && i < |defs|
    ensures Holds(defs, i, Definitions(table, g, plan))
  {
    var h := plan.order[i];
    assert h in Elements(plan.order);
    assert Definitions(table, g, plan)[plan.keys[h]] == Body(table, g, plan, h);
  }

  lemma DefinedIsListed(table: Table, g: Graph<Type>, plan: Plan, defs: seq<(string, DecodeSchema)>, k: string)
    requires PlanFor(table, g, plan) && Lists(table, g, plan, defs, |plan.order|) && k in Definitions(table, g, plan)
    requires DistinctKeys(defs)
    ensures k in DefinitionsTable(defs)
  {
    var h :| h in plan.hoisted && plan.keys[h] == k;
    assert h in Elements(plan.order);
    var i :| 0 <= i < |plan.order| && plan.order[i] == h;
    assert defs[i].0 in DefinitionsTable(defs);
  }

  /** What a plan lists: what is reached, in order of first encounter, and of that what is hoisted, where it stands. */
  ghost predicate ListedFrom(table: Table, universe: set<Type>, sorted: set<Type> -> seq<Type>, starts: seq<Type>,
                             reached: seq<Type>, listed: seq<Type>)
    requires Universe(table, universe)
  {
    && Distinct(reached) && Elements(reached) == ReachSet(ReferenceGraph(table, universe), Elements(starts))
    && FirstEncounterOrder(table, sorted, starts, reached)
    && Distinct(listed) && Follows(listed, reached)
    && forall h :: h in listed <==>
         h in reached && (OnCycle(ReferenceGraph(table, universe), h) || Twice(Rows(table, starts, reached), h))
  }

  lemma HoistedIs(table: Table, universe: set<Type>, starts: seq<Type>, order: seq<Type>, g: Graph<Type>,
                  occurrences: multiset<Type>, h: Type)
    requires Universe(table, universe) && Elements(starts) <= universe
    requires IsExpansion(table, universe, starts, order, g, occurrences)
    ensures h in Hoisted(g, occurrences) <==>
            h in order && (OnCycle(ReferenceGraph(table, universe), h) || Twice(Rows(table, starts, order), h))
  {
    hide OnCycle, Reaches, Twice, ReachSet, Distinct, Closed;
    ExpansionCloses(table, universe, starts, order, g, occurrences);
    assert h in order <==> h in g by {
      assert h in order <==> h in Elements(order);
    }
    if h in g {
      assert IsPart(g, ReferenceGraph(table, universe));
      PartCycles(g, ReferenceGraph(table, universe), h);
      TallyCounts(table, starts, order, h);
    }
  }

  lemma PlanLists(table: Table, universe: set<Type>, sorted: set<Type> -> seq<Type>, starts: seq<Type>, order: seq<Type>,
                  g: Graph<Type>, occurrences: multiset<Type>, listed: seq<Type>)
    requires Universe(table, universe) && Elements(starts) <= universe
    requires IsExpansion(table, universe, starts, order, g, occurrences)
    requires FirstEncounterOrder(table, sorted, starts, order)
    requires Elements(listed) == Hoisted(g, occurrences) && Distinct(listed) && Follows(listed, order)
    ensures ListedFrom(table, universe, sorted, starts, order, listed)
  {
    hide Hoisted, OnCycle, Twice, ReachSet, Distinct, FirstEncounterOrder, Follows;
    forall h
      ensures h in listed <==> h in order && (OnCycle(ReferenceGraph(table, universe), h) || Twice(Rows(table, starts, order), h))
    {
      HoistedIs(table, universe, starts, order, g, occurrences, h);
      assert h in listed <==> h in Elements(listed);
    }
  }

  /** Plan a type: expand its instantiations, choose the hoisted ones and key them. */
  method PlanSchema(typ: Type, table: Table, sorted: set<Type> -> seq<Type>, sccs: Graph<Type> -> seq<seq<Type>>,
                    display: Type -> Display, ghost universe: set<Type>)
    returns (plan: Plan, ghost g: Graph<Type>, ghost reached: seq<Type>)
    requires Checked(table) && Universe(table, universe) && Elements(References(table, typ)) <= universe
    requires forall s: set<Type> :: Elements(sorted(s)) == s
    requires forall g: Graph<Type> {:trigger sccs(g)} :: Closed(g) ==> IsComponents(g, sccs(g))
    ensures PlanFor(table, g, plan) && Covers(table, g, typ)
    ensures forall h :: h in g ==> Covers(table, g, h)
    ensures KeysFollow(plan.order, display, KeySequence(plan.order, plan.keys))
    ensures ListedFrom(table, universe, sorted, References(table, typ), reached, plan.order)
  {
    hide FirstEncounterOrder, Follows, ListedFrom, Covers, KeysFollow, Distinct, Hoisted;
    RootReferencesOfOne(table, typ);
    var order, adjacency, occurrences := BuildInstantiationPlan(table, [typ], sorted, universe);
    reached := order;
    ExpansionCloses(table, universe, References(table, typ), order, adjacency, occurrences);
    var hoisted, hoistedOrder := ChooseHoisted(order, adjacency, occurrences, sccs);
    var keys := AssignDefsKeys(hoistedOrder, display);
    plan, g := Plan(hoisted, hoistedOrder, keys), adjacency;
    ExpansionIsPlan(table, universe, References(table, typ), order, adjacency, occurrences, plan);
    PlanLists(table, universe, sorted, References(table, typ), order, adjacency, occurrences, hoistedOrder);
    ExpansionCovers(table, universe, typ, order, adjacency, occurrences);
  }

  /** Emit a planned type and one definition per hoisted instantiation. */
  method EmitPlan(typ: Type, table: Table, plan: Plan, ghost g: Graph<Type>) returns (root: DecodeSchema, defs: seq<(string, DecodeSchema)>)
    requires PlanFor(table, g, plan) && Covers(table, g, typ)
    requires forall h :: h in g ==> Covers(table, g, h)
    ensures root == Emitted(table, g, plan, typ)
    ensures Lists(table, g, plan, defs, |plan.order|)
  {
    OrderInGraph(table, g, plan);
    var emitter := new DecodeEmitter(table, plan, g);
    root := emitter.Emit(typ);
    defs := [];
    for i := 0 to |plan.order|
      invariant fresh(emitter) && emitter.Valid()
      invariant Lists(table, g, plan, defs, i)
    {
      var h := plan.order[i];
      var body := emitter.EmitBody(h);
      defs := defs + [(plan.keys[h], body)];
    }
  }

  // ----- What a decode plan shows -----

  /** d shows a type, given what is listed and defined: in place and part by part, or, exactly for what is
      listed, as a reference to the key of its definition. */
  ghost predicate Shows(table: Table, listed: seq<Type>, defs: seq<(string, DecodeSchema)>, t: Type, d: DecodeSchema)
    requires |defs| == |listed|
    decreases d, 1
  {
    match d
    case ScalarDecode(kind) => t == Scalar(kind)
    case ArrayDecode(elem) => t.Array? && Shows(table, listed, defs, t.elem, elem)
    case DictDecode(form, key, value) =>
      && t.Dict?
      && (form == ObjectText <==> t.key == Scalar(Text))
      && (form == ObjectStringified <==> t.key in {Scalar(Int), Scalar(Decimal), Scalar(Bool)} || (t.key.Nominal? && PlainEnum(table, t.key.decl)))
      && Shows(table, listed, defs, t.key, key) && Shows(table, listed, defs, t.value, value)
    case NominalDecode(_, _) =>
      t.Nominal? && Canonical(table, t) !in listed && ShowsBody(table, listed, defs, Canonical(table, t), d)
    case RefDecode(ref) =>
      t.Nominal? && exists i :: 0 <= i < |listed| && listed[i] == Canonical(table, t) && defs[i].0 == ref
    case ExcludedDecode(excluded) => t == excluded && (t.Exception? || t.Variable? || t.Unit?)
  }

  /** d shows an instantiation's own fields, in place. */
  ghost predicate ShowsBody(table: Table, listed: seq<Type>, defs: seq<(string, DecodeSchema)>, h: Type, d: DecodeSchema)
    requires |defs| == |listed|
    decreases d, 0
  {
    && IsHandle(table, h) && d.NominalDecode? && d.nominal == h.decl
    && |d.fields| == |table[h.decl].fields|
    && forall i :: 0 <= i < |d.fields| ==> Shows(table, listed, defs, FieldTypes(table, h.decl, h.args)[i], d.fields[i])
  }

  lemma {:induction false} EmittedShows(table: Table, g: Graph<Type>, plan: Plan, defs: seq<(string, DecodeSchema)>, t: Type)
    requires PlanFor(table, g, plan) && Covers(table, g, t) && Lists(table, g, plan, defs, |plan.order|)
    ensures Shows(table, plan.order, defs, t, Emitted(table, g, plan, t))
    decreases ReachSet(g, Elements(References(table, t))), t, 1
  {
    hide PlanFor, Covers, ReachSet, References, Elements, Body, ShowsBody, Lists;
    CoversParts(table, g, t);
    PartsReachLess(table, g, t);
    match t {
      case Array(elem) => EmittedShows(table, g, plan, defs, elem);
      case Dict(key, value) =>
        EmittedShows(table, g, plan, defs, key);
        EmittedShows(table, g, plan, defs, value);
      case Nominal(_, _) => NominalShows(table, g, plan, defs, t);
      case _ =>
    }
  }

  lemma {:induction false} NominalShows(table: Table, g: Graph<Type>, plan: Plan, defs: seq<(string, DecodeSchema)>, t: Type)
    requires PlanFor(table, g, plan) && Covers(table, g, t) && t.Nominal? && Lists(table, g, plan, defs, |plan.order|)
    ensures Shows(table, plan.order, defs, t, Emitted(table, g, plan, t))
    decreases ReachSet(g, Elements(References(table, t))), t, 0
  {
    hide PlanFor, Covers, Emitted, Body, ReachSet, Closed, OnCycle, References, DirectReferences, Elements, FieldTypes, Lists, ShowsBody;
    CoversParts(table, g, t);
    EmittedNominal(table, g, plan, t);
    var h := Canonical(table, t);
    PlanHandle(table, g, plan, h);
    ListedIff(table, g, plan, defs, h);
    if h !in plan.hoisted {
      forall i: nat | i < |table[h.decl].fields|
        ensures FieldShown(table, g, plan, defs, h, i)
      {
        BodyField(table, g, plan, h, i);
        FieldShrinks(table, g, t, h, i);
        EmittedShows(table, g, plan, defs, FieldTypes(table, h.decl, h.args)[i]);
      }
      FieldsShown(table, g, plan, defs, h);
    }
  }

  lemma ListedIff(table: Table, g: Graph<Type>, plan: Plan, defs: seq<(string, DecodeSchema)>, h: Type)
    requires PlanFor(table, g, plan) && Lists(table, g, plan, defs, |plan.order|)
    ensures |defs| == |plan.order| && (h in plan.order <==> h in plan.hoisted)
    ensures h in plan.hoisted ==> h in plan.keys && exists i :: 0 <= i < |plan.order| && plan.order[i] == h && defs[i].0 == plan.keys[h]
  {
    assert h in plan.order <==> h in Elements(plan.order);
    if h in plan.hoisted {
      var i :| 0 <= i < |plan.order| && plan.order[i] == h;
      assert defs[i].0 == plan.keys[plan.order[i]];
    }
  }

  ghost predicate FieldShown(table: Table, g: Graph<Type>, plan: Plan, defs: seq<(string, DecodeSchema)>, h: Type, i: nat)
    requires PlanFor(table, g, plan) && h in g && i < |table[h.decl].fields| && |defs| == |plan.order|
  {
    Shows(table, plan.order, defs, FieldTypes(table, h.decl, h.args)[i], Body(table, g, plan, h).fields[i])
  }

  lemma {:induction false} FieldsShown(table: Table, g: Graph<Type>, plan: Plan, defs: seq<(string, DecodeSchema)>, h: Type)
    requires PlanFor(table, g, plan) && h in g && |defs| == |plan.order| && IsHandle(table, h)
    requires forall i: nat :: i < |table[h.decl].fields| ==> FieldShown(table, g, plan, defs, h, i)
    ensures ShowsBody(table, plan.order, defs, h, Body(table, g, plan, h))
  {
    hide PlanFor, Shows, FieldTypes;
    var fields := Body(table, g, plan, h).fields;
    forall i | 0 <= i < |fields|
      ensures Shows(table, plan.order, defs, FieldTypes(table, h.decl, h.args)[i], fields[i])
    {
      assert FieldShown(table, g, plan, defs, h, i);
    }
  }

  lemma {:induction false} BodyShows(table: Table, g: Graph<Type>, plan: Plan, defs: seq<(string, DecodeSchema)>, h: Type)
    requires PlanFor(table, g, plan) && h in g && Lists(table, g, plan, defs, |plan.order|)
    ensures IsHandle(table, h) && |defs| == |plan.order|
    ensures ShowsBody(table, plan.order, defs, h, Body(table, g, plan, h))
  {
    PlanHandle(table, g, plan, h);
    ListedIff(table, g, plan, defs, h);
    hide PlanFor, Lists, Emitted, Shows, ShowsBody, FieldTypes, Covers, Body;
    forall i: nat | i < |table[h.decl].fields|
      ensures FieldShown(table, g, plan, defs, h, i)
    {
      BodyField(table, g, plan, h, i);
      EmittedShows(table, g, plan, defs, FieldTypes(table, h.decl, h.args)[i]);
    }
    FieldsShown(table, g, plan, defs, h);
  }

  /** A key is one of the first i definitions'. */
  ghost predicate Taken(defs: seq<(string, DecodeSchema)>, i: nat, key: string)
    requires i <= |defs|
  {
    exists j :: 0 <= j < i && defs[j].0 == key
  }

  lemma TakenIs(given: seq<string>, defs: seq<(string, DecodeSchema)>, i: nat)
    requires i <= |given| <= |defs| && forall j :: 0 <= j < i ==> defs[j].0 == given[j]
    ensures forall k :: Taken(defs, i, k) <==> k in Elements(given[..i])
  {
    forall k
      ensures Taken(defs, i, k) <==> k in Elements(given[..i])
    {
      if j :| 0 <= j < i && defs[j].0 == k {
        assert given[..i][j] == k;
      }
    }
  }

  /** The candidate is the bare form, unless another shares it and it is not the entry module's. */
  lemma CandidateIs(listed: seq<Type>, display: Type -> Display, i: nat)
    requires i < |listed|
    ensures Candidate(listed, display, i)
         == if !display(listed[i]).isEntry && exists j :: 0 <= j < |listed| && j != i && display(listed[j]).bare == display(listed[i]).bare
            then display(listed[i]).qualified else display(listed[i]).bare
  {
  }

  /** The key of the i-th definition, told from its candidate and the keys before it. */
  lemma KeyGiven(order: seq<Type>, display: Type -> Display, keys: map<Type, string>, defs: seq<(string, DecodeSchema)>, i: nat)
    requires keys.Keys == Elements(order) && KeysFollow(order, display, KeySequence(order, keys))
    requires |defs| == |order| && i < |order| && forall j :: 0 <= j < |order| ==> order[j] in keys && defs[j].0 == keys[order[j]]
    ensures var candidate := Candidate(order, display, i);
            && (!Taken(defs, i, candidate) ==> defs[i].0 == candidate)
            && (Taken(defs, i, candidate) ==> !Taken(defs, i, defs[i].0) && Numbered(defs, i, candidate))
  {
    hide Numeral, Taken, Elements, Candidate;
    var given := KeySequence(order, keys);
    TakenIs(given, defs, i);
    var candidate := Candidate(order, display, i);
    assert KeyFor(candidate, Elements(given[..i]), given[i]);
    if candidate in Elements(given[..i]) {
      var n: nat :| 2 <= n && given[i] == Suffixed(candidate, n) && forall m :: 2 <= m < n ==> Suffixed(candidate, m) in Elements(given[..i]);
      assert defs[i].0 == candidate + "_" + Numeral(n);
      forall m: nat | 2 <= m < n
        ensures Taken(defs, i, candidate + "_" + Numeral(m))
      {
        assert Suffixed(candidate, m) in Elements(given[..i]);
      }
    }
  }

  /** A key is the candidate with the least number from 2 on that makes it none of the keys before. */
  ghost predicate Numbered(defs: seq<(string, DecodeSchema)>, i: nat, candidate: string)
    requires i < |defs|
  {
    exists n: nat :: && 2 <= n && defs[i].0 == candidate + "_" + Numeral(n)
                     && forall m: nat :: 2 <= m < n ==> Taken(defs, i, candidate + "_" + Numeral(m))
  }

  lemma PlanKeys(table: Table, g: Graph<Type>, plan: Plan, display: Type -> Display, defs: seq<(string, DecodeSchema)>,
                 candidates: seq<string>)
    requires PlanFor(table, g, plan) && Lists(table, g, plan, defs, |plan.order|)
    requires KeysFollow(plan.order, display, KeySequence(plan.order, plan.keys))
    requires |candidates| == |plan.order| && forall i :: 0 <= i < |plan.order| ==> candidates[i] == Candidate(plan.order, display, i)
    ensures |defs| == |plan.order|
    ensures forall i :: 0 <= i < |defs| ==>
              candidates[i] == if !display(plan.order[i]).isEntry
                                  && exists j :: 0 <= j < |defs| && j != i && display(plan.order[j]).bare == display(plan.order[i]).bare
                               then display(plan.order[i]).qualified else display(plan.order[i]).bare
    ensures forall i :: 0 <= i < |defs| && !Taken(defs, i, candidates[i]) ==> defs[i].0 == candidates[i]
    ensures forall i :: 0 <= i < |defs| && Taken(defs, i, candidates[i]) ==> !Taken(defs, i, defs[i].0) && Numbered(defs, i, candidates[i])
  {
    hide KeysFollow, Body, Taken, Numbered, Candidate, Numeral;
    forall i | 0 <= i < |plan.order|
      ensures !Taken(defs, i, candidates[i]) ==> defs[i].0 == candidates[i]
      ensures Taken(defs, i, candidates[i]) ==> !Taken(defs, i, defs[i].0) && Numbered(defs, i, candidates[i])
    {
      KeyGiven(plan.order, display, plan.keys, defs, i);
    }
    forall i | 0 <= i < |plan.order|
      ensures candidates[i] == if !display(plan.order[i]).isEntry
                                  && exists j :: 0 <= j < |defs| && j != i && display(plan.order[j]).bare == display(plan.order[i]).bare
                               then display(plan.order[i]).qualified else display(plan.order[i]).bare
    {
      CandidateIs(plan.order, display, i);
    }
  }

  /** The definitions show what is listed, and mean it at every depth. */
  lemma PlanShows(table: Table, g: Graph<Type>, plan: Plan, typ: Type, defs: seq<(string, DecodeSchema)>)
    requires PlanFor(table, g, plan) && Covers(table, g, typ) && Lists(table, g, plan, defs, |plan.order|)
    ensures |defs| == |plan.order| && Shows(table, plan.order, defs, typ, Emitted(table, g, plan, typ))
    ensures forall i :: 0 <= i < |plan.order| ==> ShowsBody(table, plan.order, defs, plan.order[i], defs[i].1)
    ensures forall i, depth: nat :: 0 <= i < |plan.order| ==>
              Unfolded(Definitions(table, g, plan), defs[i].1, depth) == Inlined(table, plan.order[i], depth)
  {
    hide PlanFor, Covers, Shows, ShowsBody, Definitions, Emitted, Body;
    EmittedShows(table, g, plan, defs, typ);
    forall i | 0 <= i < |plan.order|
      ensures ShowsBody(table, plan.order, defs, plan.order[i], defs[i].1)
    {
      BodyShows(table, g, plan, defs, plan.order[i]);
    }
    forall i, depth: nat | 0 <= i < |plan.order|
      ensures Unfolded(Definitions(table, g, plan), defs[i].1, depth) == Inlined(table, plan.order[i], depth)
    {
      PlanHandle(table, g, plan, plan.order[i]);
      if depth > 0 {
        BodyKeepsMeaning(table, g, plan, plan.order[i], depth);
      }
    }
  }

  /** The decode plan of a type with a finite closure. What is defined is what is recursive or named twice,
      in order of first encounter, under the keys the display forms give; every reference is bound, and
      following references gives, at every depth, what inlining would. */
  method BuildDecodePlan(typ: Type, table: Table, sorted: set<Type> -> seq<Type>, sccs: Graph<Type> -> seq<seq<Type>>,
                         display: Type -> Display, ghost universe: set<Type>)
    returns (root: DecodeSchema, defs: seq<(string, DecodeSchema)>, ghost reached: seq<Type>, ghost listed: seq<Type>,
            ghost candidates: seq<string>)
    requires Checked(table) && Universe(table, universe) && Elements(References(table, typ)) <= universe
    requires forall s: set<Type> :: Elements(sorted(s)) == s
    requires forall g: Graph<Type> {:trigger sccs(g)} :: Closed(g) ==> IsComponents(g, sccs(g))
    ensures Distinct(reached) && Elements(reached) == ReachSet(ReferenceGraph(table, universe), Elements(References(table, typ)))
    ensures FirstEncounterOrder(table, sorted, References(table, typ), reached)
    ensures Distinct(listed) && Follows(listed, reached) && |defs| == |listed|
    ensures forall h :: h in listed <==>
              && h in reached
              && (|| OnCycle(ReferenceGraph(table, universe), h)
                  || var rows := [References(table, typ)] + seq(|reached|, i requires 0 <= i < |reached| => DirectReferences(table, reached[i]));
                     exists r: nat, k: nat, r': nat, k': nat ::
                       At(rows, r, k, h) && At(rows, r', k', h) && (r, k) != (r', k'))
    ensures |candidates| == |listed|
    ensures forall i :: 0 <= i < |listed| ==>
              candidates[i] == if !display(listed[i]).isEntry
                                  && exists j :: 0 <= j < |listed| && j != i && display(listed[j]).bare == display(listed[i]).bare
                               then display(listed[i]).qualified else display(listed[i]).bare
    ensures forall i :: 0 <= i < |defs| && !Taken(defs, i, candidates[i]) ==> defs[i].0 == candidates[i]
    ensures forall i :: 0 <= i < |defs| && Taken(defs, i, candidates[i]) ==>
              !Taken(defs, i, defs[i].0) && Numbered(defs, i, candidates[i])
    ensures Shows(table, listed, defs, typ, root)
    ensures forall i :: 0 <= i < |listed| ==> ShowsBody(table, listed, defs, listed[i], defs[i].1)
    ensures DistinctKeys(defs)
    ensures RefKeys(root) <= DefinitionsTable(defs).Keys
    ensures forall i :: 0 <= i < |defs| ==> RefKeys(defs[i].1) <= DefinitionsTable(defs).Keys
    ensures forall depth: nat :: Unfolded(DefinitionsTable(defs), root, depth) == Inlined(table, typ, depth)
    ensures forall i, depth: nat :: 0 <= i < |listed| ==> Unfolded(DefinitionsTable(defs), defs[i].1, depth) == Inlined(table, listed[i], depth)
  {
    hide PlanFor, Covers, KeysFollow, FirstEncounterOrder, Follows, ReachSet, Elements, Distinct, OnCycle, References, DirectReferences,
         Emitted, Shows, ShowsBody, DistinctKeys, DefinitionsTable, RefKeys, Unfolded, Inlined, Taken, Numbered, Candidate;
    var plan;
    ghost var g;
    plan, g, reached := PlanSchema(typ, table, sorted, sccs, display, universe);
    listed := plan.order;
    root, defs := EmitPlan(typ, table, plan, g);
    DefinitionsAre(table, g, plan, defs);
    PlanIsSound(table, g, plan, typ, defs);
    candidates := seq(|listed|, i requires 0 <= i < |listed| => Candidate(listed, display, i));
    PlanKeys(table, g, plan, display, defs, candidates);
    PlanShows(table, g, plan, typ, defs);
  }

  lemma PlanIsSound(table: Table, g: Graph<Type>, plan: Plan, typ: Type, defs: seq<(string, DecodeSchema)>)
    requires PlanFor(table, g, plan) && Covers(table, g, typ) && Lists(table, g, plan, defs, |plan.order|)
    ensures var root := Emitted(table, g, plan, typ);
            && RefKeys(root) <= Definitions(table, g, plan).Keys
            && (forall i :: 0 <= i < |defs| ==> RefKeys(defs[i].1) <= Definitions(table, g, plan).Keys)
            && (forall depth: nat :: Unfolded(Definitions(table, g, plan), root, depth) == Inlined(table, typ, depth))
  {
    EmittedBound(table, g, plan, typ);
    forall i | 0 <= i < |defs|
      ensures RefKeys(defs[i].1) <= Definitions(table, g, plan).Keys
    {
      assert plan.order[i] in Elements(plan.order);
      DefinitionsBound(table, g, plan, plan.order[i]);
    }
    forall depth: nat
      ensures Unfolded(Definitions(table, g, plan), Emitted(table, g, plan, typ), depth) == Inlined(table, typ, depth)
    {
      EmittedKeepsMeaning(table, g, plan, typ, depth);
    }
  }
}
