/** Running a template plan comes to the inlined shape of the source type. */
module SchemaMeaning {
  import opened SchemaTypes
  import opened SchemaTemplate

  // Parameters are looked up in the bindings in effect, and a reference's arguments are substituted before they
  // become the callee's bindings.

  predicate Parameterless(e: EncodeSchema) {
    match e
    case ArrayEncode(elem) => Parameterless(elem)
    case DictEncode(key, value) => Parameterless(key) && Parameterless(value)
    case ParameterEncode(_) => false
    case ReferenceEncode(_, arguments) => forall k :: 0 <= k < |arguments| ==> Parameterless(arguments[k])
    case NominalEncode(_, _, fields) => forall i :: 0 <= i < |fields| ==> Parameterless(fields[i])
    case _ => true
  }

  /** Replace every parameter by its binding. */
  function Substitute(e: EncodeSchema, bindings: seq<EncodeSchema>): EncodeSchema {
    match e
    case ArrayEncode(elem) => ArrayEncode(Substitute(elem, bindings))
    case DictEncode(key, value) => DictEncode(Substitute(key, bindings), Substitute(value, bindings))
    case ParameterEncode(index) => if index < |bindings| then bindings[index] else e
    case ReferenceEncode(decl, arguments) =>
      ReferenceEncode(decl, seq(|arguments|, k requires 0 <= k < |arguments| => Substitute(arguments[k], bindings)))
    case NominalEncode(nominal, isEnum, fields) =>
      NominalEncode(nominal, isEnum, seq(|fields|, i requires 0 <= i < |fields| => Substitute(fields[i], bindings)))
    case _ => e
  }

  function SubstituteAll(es: seq<EncodeSchema>, bindings: seq<EncodeSchema>): seq<EncodeSchema> {
    seq(|es|, k requires 0 <= k < |es| => Substitute(es[k], bindings))
  }

  /** The wire form of a dict, told from its key's schema once parameters and references are followed. */
  function KeyFormAt(definitions: Definitions, key: EncodeSchema, bindings: seq<EncodeSchema>): KeyForm
    decreases key.ParameterEncode?
  {
    match key
    case ScalarEncode(kind) => if kind == Text then ObjectText else if kind == Json then Entries else ObjectStringified
    case ParameterEncode(index) =>
      if index < |bindings| && !bindings[index].ParameterEncode? then KeyFormAt(definitions, bindings[index], bindings) else Entries
    case ReferenceEncode(decl, _) =>
      if decl in definitions && definitions[decl].body.NominalEncode? && definitions[decl].body.isEnum && definitions[decl].body.fields == []
      then ObjectStringified else Entries
    case NominalEncode(_, isEnum, fields) => if isEnum && fields == [] then ObjectStringified else Entries
    case _ => Entries
  }

  /** What the encoder does with a schema under the bindings in effect, cut at a number of nominal levels. */
  function Expanded(definitions: Definitions, e: EncodeSchema, bindings: seq<EncodeSchema>, depth: nat): Shape
    decreases depth, !Parameterless(e), e
  {
    match e
    case ScalarEncode(kind) => ScalarShape(kind)
    case ArrayEncode(elem) => ArrayShape(Expanded(definitions, elem, bindings, depth))
    case DictEncode(key, value) =>
      DictShape(KeyFormAt(definitions, key, bindings),
                Expanded(definitions, key, bindings, depth), Expanded(definitions, value, bindings, depth))
    case ParameterEncode(index) =>
      if index < |bindings| && Parameterless(bindings[index]) then Expanded(definitions, bindings[index], bindings, depth) else Cut
    case ExceptionEncode(exception) => ExceptionShape(exception)
    case ReferenceEncode(decl, arguments) =>
      if depth == 0 || decl !in definitions || !definitions[decl].body.NominalEncode? then Cut
      else
        var body := definitions[decl].body;
        var callee := SubstituteAll(arguments, bindings);
        NominalShape(body.nominal, seq(|body.fields|, i requires 0 <= i < |body.fields| =>
          Expanded(definitions, body.fields[i], callee, depth - 1)))
    case NominalEncode(nominal, _, fields) =>
      if depth == 0 then Cut
      else NominalShape(nominal, seq(|fields|, i requires 0 <= i < |fields| => Expanded(definitions, fields[i], bindings, depth - 1)))
    case UnitEncode => UnitShape
  }

  // ----- The bindings in effect describe a substitution of closed types -----

  predicate ClosedTypes(table: Table, sigma: Substitution) {
    forall x :: x in sigma ==> Scoped(table, sigma[x], {})
  }

  /** Each slot is bound to the schema of the type its parameter stands for. */
  predicate Bound(table: Table, slots: map<string, nat>, bindings: seq<EncodeSchema>, sigma: Substitution) {
    forall x :: x in slots ==>
                  x in sigma && slots[x] < |bindings| && bindings[slots[x]] == Template(table, sigma[x], map[])
  }

  predicate Resolving(table: Table, definitions: Definitions) {
    forall d :: d in definitions ==>
                  d in table && definitions[d] == DefinitionOf(table, d) && References(definitions[d].body) <= definitions.Keys
  }

  lemma {:induction false} ScopedMore(table: Table, t: Type, vars: set<string>, more: set<string>)
    requires Scoped(table, t, vars) && vars <= more
    ensures Scoped(table, t, more)
  {
    match t {
      case Array(elem) => ScopedMore(table, elem, vars, more);
      case Dict(key, value) =>
        ScopedMore(table, key, vars, more);
        ScopedMore(table, value, vars, more);
      case Nominal(_, args) =>
        forall i | 0 <= i < |args|
          ensures Scoped(table, args[i], more)
        {
          ScopedMore(table, args[i], vars, more);
        }
      case _ =>
    }
  }

  lemma {:induction false} SubstOfClosed(table: Table, sigma: Substitution, t: Type)
    requires Scoped(table, t, {})
    ensures Subst(sigma, t) == t
  {
    match t {
      case Array(elem) => SubstOfClosed(table, sigma, elem);
      case Dict(key, value) =>
        SubstOfClosed(table, sigma, key);
        SubstOfClosed(table, sigma, value);
      case Nominal(decl, args) =>
        forall i | 0 <= i < |args|
          ensures Subst(sigma, args[i]) == args[i]
        {
          SubstOfClosed(table, sigma, args[i]);
        }
        assert Subst(sigma, t).args == args;
      case _ =>
    }
  }

  lemma {:induction false} SubstIsClosed(table: Table, sigma: Substitution, t: Type)
    requires Scoped(table, t, sigma.Keys) && ClosedTypes(table, sigma)
    ensures Scoped(table, Subst(sigma, t), {})
  {
    match t {
      case Array(elem) => SubstIsClosed(table, sigma, elem);
      case Dict(key, value) =>
        SubstIsClosed(table, sigma, key);
        SubstIsClosed(table, sigma, value);
      case Nominal(decl, args) =>
        forall i | 0 <= i < |args|
          ensures Scoped(table, Subst(sigma, args[i]), {})
        {
          SubstIsClosed(table, sigma, args[i]);
        }
      case _ =>
    }
  }

  /** The schema of a closed type names no parameter. */
  lemma {:induction false} TemplateParameterless(table: Table, t: Type, slots: map<string, nat>)
    requires RelevantVariables(table, t) == {}
    ensures Parameterless(Template(table, t, slots))
  {
    match t {
      case Array(elem) => TemplateParameterless(table, elem, slots);
      case Dict(key, value) =>
        TemplateParameterless(table, key, slots);
        TemplateParameterless(table, value, slots);
      case Nominal(decl, args) =>
        if decl in table && |args| == |table[decl].params| {
          var positions := RelevantPositions(table, decl);
          forall k | 0 <= k < |positions|
            ensures Parameterless(Template(table, args[positions[k]], slots))
          {
            assert forall x :: x in RelevantVariables(table, args[positions[k]]) ==> x in RelevantVariables(table, t);
            TemplateParameterless(table, args[positions[k]], slots);
          }
        }
      case _ =>
    }
  }

  /** Substituting bindings in a schema is taking the schema of the substituted type. */
  lemma {:induction false} SubstituteTemplate(table: Table, t: Type, slots: map<string, nat>, bindings: seq<EncodeSchema>,
                                              sigma: Substitution)
    requires RelevantVariables(table, t) <= slots.Keys && Bound(table, slots, bindings, sigma)
    ensures Substitute(Template(table, t, slots), bindings) == Template(table, Subst(sigma, t), map[])
    decreases t, 1
  {
    match t {
      case Array(elem) => SubstituteTemplate(table, elem, slots, bindings, sigma);
      case Dict(key, value) =>
        SubstituteTemplate(table, key, slots, bindings, sigma);
        SubstituteTemplate(table, value, slots, bindings, sigma);
      case Nominal(_, _) => SubstituteNominal(table, t, slots, bindings, sigma);
      case _ =>
    }
  }

  lemma {:induction false} SubstituteNominal(table: Table, t: Type, slots: map<string, nat>, bindings: seq<EncodeSchema>,
                                             sigma: Substitution)
    requires RelevantVariables(table, t) <= slots.Keys && Bound(table, slots, bindings, sigma) && t.Nominal?
    ensures Substitute(Template(table, t, slots), bindings) == Template(table, Subst(sigma, t), map[])
    decreases t, 0
  {
    if t.decl in table && |t.args| == |table[t.decl].params| {
      var positions := RelevantPositions(table, t.decl);
      hide RelevantPositions, Bound, Template, Substitute, Subst;
      forall k | 0 <= k < |positions|
        ensures Substitute(Template(table, t.args[positions[k]], slots), bindings) == Template(table, Subst(sigma, t.args[positions[k]]), map[])
      {
        assert forall x :: x in RelevantVariables(table, t.args[positions[k]]) ==> x in RelevantVariables(table, t);
        SubstituteTemplate(table, t.args[positions[k]], slots, bindings, sigma);
      }
      SubstituteReference(table, t, slots, bindings, sigma);
    }
  }

  lemma SubstituteReference(table: Table, t: Type, slots: map<string, nat>, bindings: seq<EncodeSchema>, sigma: Substitution)
    requires t.Nominal? && t.decl in table && |t.args| == |table[t.decl].params|
    requires forall k :: 0 <= k < |RelevantPositions(table, t.decl)| ==>
                           var argument := t.args[RelevantPositions(table, t.decl)[k]];
                           Substitute(Template(table, argument, slots), bindings) == Template(table, Subst(sigma, argument), map[])
    ensures Substitute(Template(table, t, slots), bindings) == Template(table, Subst(sigma, t), map[])
  {
    hide RelevantFrom;
    assert Substitute(Template(table, t, slots), bindings).arguments == Template(table, Subst(sigma, t), map[]).arguments;
  }

  lemma {:induction false} ReferencesOfSubstitute(e: EncodeSchema, bindings: seq<EncodeSchema>, known: set<nat>)
    requires References(e) <= known && forall k :: 0 <= k < |bindings| ==> References(bindings[k]) <= known
    ensures References(Substitute(e, bindings)) <= known
  {
    match e {
      case ArrayEncode(elem) => ReferencesOfSubstitute(elem, bindings, known);
      case DictEncode(key, value) =>
        ReferencesOfSubstitute(key, bindings, known);
        ReferencesOfSubstitute(value, bindings, known);
      case ReferenceEncode(decl, arguments) =>
        forall k | 0 <= k < |arguments|
          ensures References(Substitute(arguments[k], bindings)) <= known
        {
          assert forall d :: d in References(arguments[k]) ==> d in References(e);
          ReferencesOfSubstitute(arguments[k], bindings, known);
        }
      case NominalEncode(_, _, fields) =>
        forall i | 0 <= i < |fields|
          ensures References(Substitute(fields[i], bindings)) <= known
        {
          assert forall d :: d in References(fields[i]) ==> d in References(e);
          ReferencesOfSubstitute(fields[i], bindings, known);
        }
      case _ =>
    }
  }

  /** Everything in place to run the schema of t under these bindings. */
  predicate Ready(table: Table, definitions: Definitions, t: Type, slots: map<string, nat>, bindings: seq<EncodeSchema>,
                  sigma: Substitution) {
    && Checked(table) && Resolving(table, definitions)
    && Scoped(table, t, sigma.Keys) && ClosedTypes(table, sigma)
    && RelevantVariables(table, t) <= slots.Keys && Bound(table, slots, bindings, sigma)
    && References(Template(table, t, slots)) <= definitions.Keys
    && forall k :: 0 <= k < |bindings| ==> References(bindings[k]) <= definitions.Keys
  }

  lemma {:induction false} KeyFormOfTemplate(table: Table, definitions: Definitions, key: Type, slots: map<string, nat>,
                                             bindings: seq<EncodeSchema>)
    requires !key.Variable? && Resolving(table, definitions) && References(Template(table, key, slots)) <= definitions.Keys
    ensures KeyFormAt(definitions, Template(table, key, slots), bindings) == KeyFormOf(table, key)
  {
    if key.Nominal? {
      assert key.decl in References(Template(table, key, slots));
      assert definitions[key.decl] == DefinitionOf(table, key.decl);
    }
  }

  /** Both sides tell a dict's wire form from the same key, followed through its parameter if it is one. */
  lemma {:induction false} KeyFormAgrees(table: Table, definitions: Definitions, key: Type, slots: map<string, nat>,
                                         bindings: seq<EncodeSchema>, sigma: Substitution)
    requires Ready(table, definitions, key, slots, bindings, sigma)
    ensures KeyFormAt(definitions, Template(table, key, slots), bindings) == KeyFormOf(table, Subst(sigma, key))
  {
    if key.Variable? {
      assert Scoped(table, sigma[key.name], {});
      KeyFormOfTemplate(table, definitions, sigma[key.name], map[], bindings);
    } else {
      KeyFormOfTemplate(table, definitions, key, slots, bindings);
      assert KeyFormOf(table, Subst(sigma, key)) == KeyFormOf(table, key);
    }
  }

  // ----- The theorem -----

  /** The type arguments a reference's callee stands under. */
  function CalleeTypes(table: Table, t: Type, sigma: Substitution): Substitution
    requires t.Nominal? && t.decl in table && |t.args| == |table[t.decl].params|
  {
    Binding(table[t.decl].params, Subst(sigma, t).args)
  }

  /** The bindings a reference's callee runs under. */
  function CalleeBindings(table: Table, t: Type, slots: map<string, nat>, bindings: seq<EncodeSchema>): seq<EncodeSchema>
    requires t.Nominal?
  {
    SubstituteAll(Template(table, t, slots).arguments, bindings)
  }

  lemma {:induction false} CalleeTypesClosed(table: Table, t: Type, sigma: Substitution)
    requires Checked(table) && t.Nominal? && Scoped(table, t, sigma.Keys) && ClosedTypes(table, sigma)
    ensures ClosedTypes(table, CalleeTypes(table, t, sigma)) && CalleeTypes(table, t, sigma).Keys == ParamSet(table[t.decl])
  {
    var params, tau := table[t.decl].params, CalleeTypes(table, t, sigma);
    forall x | x in tau
      ensures Scoped(table, tau[x], {})
    {
      var j :| 0 <= j < |params| && params[j] == x;
      SubstIsClosed(table, sigma, t.args[j]);
      assert tau[params[j]] == Subst(sigma, t.args[j]);
    }
  }

  lemma {:induction false} CalleeArgument(table: Table, definitions: Definitions, t: Type, slots: map<string, nat>,
                                          bindings: seq<EncodeSchema>, sigma: Substitution, k: nat)
    requires t.Nominal? && Ready(table, definitions, t, slots, bindings, sigma) && k < |RelevantPositions(table, t.decl)|
    ensures var callee := CalleeBindings(table, t, slots, bindings);
            && k < |callee|
            && callee[k] == Template(table, Subst(sigma, t.args[RelevantPositions(table, t.decl)[k]]), map[])
            && References(callee[k]) <= definitions.Keys
  {
    var i := RelevantPositions(table, t.decl)[k];
    var e := Template(table, t, slots);
    assert forall x :: x in RelevantVariables(table, t.args[i]) ==> x in RelevantVariables(table, t);
    assert forall r :: r in References(e.arguments[k]) ==> r in References(e);
    SubstituteTemplate(table, t.args[i], slots, bindings, sigma);
    ReferencesOfSubstitute(e.arguments[k], bindings, definitions.Keys);
  }

  lemma {:induction false} CalleeSlot(table: Table, definitions: Definitions, t: Type, slots: map<string, nat>, bindings: seq<EncodeSchema>,
                   sigma: Substitution, k: nat)
    requires t.Nominal? && Ready(table, definitions, t, slots, bindings, sigma) && k < |RelevantPositions(table, t.decl)|
    ensures var x := table[t.decl].params[RelevantPositions(table, t.decl)[k]];
            var callee, tau := CalleeBindings(table, t, slots, bindings), CalleeTypes(table, t, sigma);
            && x in tau && k < |callee| && callee[k] == Template(table, tau[x], map[])
  {
    var i := RelevantPositions(table, t.decl)[k];
    CalleeArgument(table, definitions, t, slots, bindings, sigma, k);
    assert CalleeTypes(table, t, sigma)[table[t.decl].params[i]] == Subst(sigma, t.args[i]);
  }

  lemma SlotOf(table: Table, decl: nat, x: string)
    returns (k: nat)
    requires Checked(table) && decl in table && x in Slots(table, decl)
    ensures k < |RelevantPositions(table, decl)| && table[decl].params[RelevantPositions(table, decl)[k]] == x
    ensures Slots(table, decl)[x] == k
  {
    k :| 0 <= k < |RelevantPositions(table, decl)| && table[decl].params[RelevantPositions(table, decl)[k]] == x;
  }

  lemma {:induction false} CalleeBound(table: Table, definitions: Definitions, t: Type, slots: map<string, nat>,
                                       bindings: seq<EncodeSchema>, sigma: Substitution)
    requires t.Nominal? && Ready(table, definitions, t, slots, bindings, sigma)
    ensures Bound(table, Slots(table, t.decl), CalleeBindings(table, t, slots, bindings), CalleeTypes(table, t, sigma))
  {
    var callee, tau := CalleeBindings(table, t, slots, bindings), CalleeTypes(table, t, sigma);
    forall x | x in Slots(table, t.decl)
      ensures x in tau && Slots(table, t.decl)[x] < |callee| && callee[Slots(table, t.decl)[x]] == Template(table, tau[x], map[])
    {
      var k := SlotOf(table, t.decl, x);
      CalleeSlot(table, definitions, t, slots, bindings, sigma, k);
    }
  }

  /** A reference's bindings describe the callee's type arguments. */
  lemma {:induction false} CalleeReady(table: Table, definitions: Definitions, t: Type, slots: map<string, nat>,
                                       bindings: seq<EncodeSchema>, sigma: Substitution, i: nat)
    requires t.Nominal? && Ready(table, definitions, t, slots, bindings, sigma) && i < |table[t.decl].fields|
    ensures Ready(table, definitions, table[t.decl].fields[i], Slots(table, t.decl),
                  CalleeBindings(table, t, slots, bindings), CalleeTypes(table, t, sigma))
  {
    var callee := CalleeBindings(table, t, slots, bindings);
    SlotsCover(table, t.decl);
    CalleeTypesClosed(table, t, sigma);
    CalleeBound(table, definitions, t, slots, bindings, sigma);
    forall k | 0 <= k < |callee|
      ensures References(callee[k]) <= definitions.Keys
    {
      CalleeArgument(table, definitions, t, slots, bindings, sigma, k);
    }
    FieldReferences(table, definitions, t, slots, i);
  }

  lemma {:induction false} FieldReferences(table: Table, definitions: Definitions, t: Type, slots: map<string, nat>, i: nat)
    requires t.Nominal? && t.decl in table && i < |table[t.decl].fields| && Resolving(table, definitions)
    requires References(Template(table, t, slots)) <= definitions.Keys
    ensures t.decl in definitions
    ensures definitions[t.decl].body.fields[i] == Template(table, table[t.decl].fields[i], Slots(table, t.decl))
    ensures References(Template(table, table[t.decl].fields[i], Slots(table, t.decl))) <= definitions.Keys
  {
    assert t.decl in References(Template(table, t, slots));
    var body := definitions[t.decl].body;
    assert forall r :: r in References(body.fields[i]) ==> r in References(body);
  }

  lemma NominalReady(table: Table, definitions: Definitions, t: Type, slots: map<string, nat>, bindings: seq<EncodeSchema>,
                     sigma: Substitution)
    requires Ready(table, definitions, t, slots, bindings, sigma) && t.Nominal?
    ensures t.decl in table && |t.args| == |table[t.decl].params|
    ensures t.decl in definitions && definitions[t.decl] == DefinitionOf(table, t.decl)
  {
    hide DefinitionOf, Bound, ClosedTypes, Checked;
    assert t.decl in References(Template(table, t, slots));
  }

  lemma PartsReady(table: Table, definitions: Definitions, t: Type, slots: map<string, nat>, bindings: seq<EncodeSchema>,
                   sigma: Substitution)
    requires Ready(table, definitions, t, slots, bindings, sigma)
    ensures t.Array? ==> Ready(table, definitions, t.elem, slots, bindings, sigma)
    ensures t.Dict? ==> Ready(table, definitions, t.key, slots, bindings, sigma) && Ready(table, definitions, t.value, slots, bindings, sigma)
    ensures t.Variable? ==> t.name in sigma && t.name in slots && slots[t.name] < |bindings|
  {
    hide Bound, ClosedTypes, Checked, Resolving;
    if t.Variable? {
      VariableIsBound(table, slots, bindings, sigma, t.name);
    }
  }

  lemma VariableIsBound(table: Table, slots: map<string, nat>, bindings: seq<EncodeSchema>, sigma: Substitution, name: string)
    requires Bound(table, slots, bindings, sigma) && name in slots
    ensures name in sigma && slots[name] < |bindings|
  {
  }

  lemma {:induction false} VariableReady(table: Table, definitions: Definitions, name: string, slots: map<string, nat>,
                                         bindings: seq<EncodeSchema>, sigma: Substitution)
    requires Ready(table, definitions, Variable(name), slots, bindings, sigma)
    ensures Scoped(table, sigma[name], {}) && Ready(table, definitions, sigma[name], map[], bindings, sigma)
    ensures Subst(sigma, sigma[name]) == sigma[name] && Parameterless(bindings[slots[name]])
    ensures bindings[slots[name]] == Template(table, sigma[name], map[])
  {
    ScopedVariables(table, sigma[name], {});
    TemplateParameterless(table, sigma[name], map[]);
    SubstOfClosed(table, sigma, sigma[name]);
    ScopedMore(table, sigma[name], {}, sigma.Keys);
  }

  predicate FieldAgrees(table: Table, definitions: Definitions, decl: nat, callee: seq<EncodeSchema>, tau: Substitution,
                        depth: nat, i: nat)
    requires decl in table && i < |table[decl].fields| && depth > 0
  {
    Expanded(definitions, Template(table, table[decl].fields[i], Slots(table, decl)), callee, depth - 1)
    == Inlined(table, Subst(tau, table[decl].fields[i]), depth - 1)
  }

  lemma {:induction false} ExpandedIsInlined(table: Table, definitions: Definitions, t: Type, slots: map<string, nat>,
                                             bindings: seq<EncodeSchema>, sigma: Substitution, depth: nat)
    requires Ready(table, definitions, t, slots, bindings, sigma)
    ensures Expanded(definitions, Template(table, t, slots), bindings, depth) == Inlined(table, Subst(sigma, t), depth)
    decreases depth, !Scoped(table, t, {}), t, 1
  {
    hide Ready;
    PartsReady(table, definitions, t, slots, bindings, sigma);
    match t {
      case Array(elem) => ExpandedIsInlined(table, definitions, elem, slots, bindings, sigma, depth);
      case Dict(key, value) =>
        KeyFormAgrees(table, definitions, key, slots, bindings, sigma);
        ExpandedIsInlined(table, definitions, key, slots, bindings, sigma, depth);
        ExpandedIsInlined(table, definitions, value, slots, bindings, sigma, depth);
      case Variable(name) =>
        VariableReady(table, definitions, name, slots, bindings, sigma);
        ExpandedIsInlined(table, definitions, sigma[name], map[], bindings, sigma, depth);
      case Nominal(_, _) =>
        if depth > 0 {
          NominalIsInlined(table, definitions, t, slots, bindings, sigma, depth);
        }
      case _ =>
    }
  }

  lemma {:induction false} NominalIsInlined(table: Table, definitions: Definitions, t: Type, slots: map<string, nat>,
                                            bindings: seq<EncodeSchema>, sigma: Substitution, depth: nat)
    requires Ready(table, definitions, t, slots, bindings, sigma) && t.Nominal? && depth > 0
    ensures Expanded(definitions, Template(table, t, slots), bindings, depth) == Inlined(table, Subst(sigma, t), depth)
    decreases depth, !Scoped(table, t, {}), t, 0
  {
    hide Ready, Expanded, Inlined, Template, Subst, CalleeBindings, CalleeTypes, DefinitionOf;
    NominalReady(table, definitions, t, slots, bindings, sigma);
    var callee, tau := CalleeBindings(table, t, slots, bindings), CalleeTypes(table, t, sigma);
    forall i: nat | i < |table[t.decl].fields|
      ensures FieldAgrees(table, definitions, t.decl, callee, tau, depth, i)
    {
      CalleeReady(table, definitions, t, slots, bindings, sigma, i);
      ExpandedIsInlined(table, definitions, table[t.decl].fields[i], Slots(table, t.decl), callee, tau, depth - 1);
    }
    ExpandedFields(table, definitions, t, slots, bindings, sigma, depth);
  }

  lemma {:induction false} ExpandedFields(table: Table, definitions: Definitions, t: Type, slots: map<string, nat>,
                                          bindings: seq<EncodeSchema>, sigma: Substitution, depth: nat)
    requires t.Nominal? && t.decl in definitions && t.decl in table && definitions[t.decl] == DefinitionOf(table, t.decl)
    requires |t.args| == |table[t.decl].params| && depth > 0
    requires forall i: nat :: i < |table[t.decl].fields| ==>
                                FieldAgrees(table, definitions, t.decl, CalleeBindings(table, t, slots, bindings), CalleeTypes(table, t, sigma), depth, i)
    ensures Expanded(definitions, Template(table, t, slots), bindings, depth) == Inlined(table, Subst(sigma, t), depth)
  {
    var left, right := Expanded(definitions, Template(table, t, slots), bindings, depth), Inlined(table, Subst(sigma, t), depth);
    forall i: nat | i < |table[t.decl].fields|
      ensures left.fields[i] == right.fields[i]
    {
      assert FieldAgrees(table, definitions, t.decl, CalleeBindings(table, t, slots, bindings), CalleeTypes(table, t, sigma), depth, i);
    }
    assert left.fields == right.fields;
  }

  /** The finished plan of a growing type means, at every depth, what inlining the type would mean. */
  lemma TemplatePlanKeepsMeaning(table: Table, typ: Type, root: EncodeSchema, definitions: Definitions, depth: nat)
    requires Checked(table) && Scoped(table, typ, {})
    requires root == Template(table, typ, map[])
    requires forall d :: d in definitions ==> d in table && definitions[d] == DefinitionOf(table, d)
    requires WellBoundPlan(definitions, root)
    ensures Expanded(definitions, root, [], depth) == Inlined(table, typ, depth)
  {
    WellBoundReferences(definitions, root, 0);
    forall d | d in definitions
      ensures References(definitions[d].body) <= definitions.Keys
    {
      WellBoundReferences(definitions, definitions[d].body, definitions[d].arity);
    }
    var none: Substitution := map[];
    assert none.Keys == {};
    ScopedVariables(table, typ, {});
    SubstOfClosed(table, none, typ);
    ExpandedIsInlined(table, definitions, typ, map[], [], none, depth);
  }

  lemma {:induction false} WellBoundReferences(definitions: Definitions, e: EncodeSchema, arity: nat)
    requires WellBound(definitions, e, arity)
    ensures References(e) <= definitions.Keys
  {
    match e {
      case ArrayEncode(elem) => WellBoundReferences(definitions, elem, arity);
      case DictEncode(key, value) =>
        WellBoundReferences(definitions, key, arity);
        WellBoundReferences(definitions, value, arity);
      case ReferenceEncode(_, arguments) =>
        forall k | 0 <= k < |arguments|
          ensures References(arguments[k]) <= definitions.Keys
        {
          WellBoundReferences(definitions, arguments[k], arity);
        }
      case NominalEncode(_, _, fields) =>
        forall i | 0 <= i < |fields|
          ensures References(fields[i]) <= definitions.Keys
        {
          WellBoundReferences(definitions, fields[i], arity);
        }
      case _ =>
    }
  }
}
