/** The encode plan of a type whose instantiations grow without bound: one template per declaration. */
module SchemaTemplate {
  import opened Graphs
  import opened SchemaTypes

  // A template has a parameter for each relevant type parameter. The finished plan is closed, and applying it at
  // run time means exactly what inlining the source type would, to every depth.

  datatype EncodeSchema =
    | ScalarEncode(kind: ScalarKind)
    | ArrayEncode(elem: EncodeSchema)
    | DictEncode(key: EncodeSchema, value: EncodeSchema)
    | ParameterEncode(index: nat)
    | ExceptionEncode(exception: nat)
    | ReferenceEncode(decl: nat, arguments: seq<EncodeSchema>)
    | NominalEncode(nominal: nat, isEnum: bool, fields: seq<EncodeSchema>)
    | UnitEncode  // stands only where an erased argument would be; no emitted schema holds it

  datatype Definition = Definition(arity: nat, body: EncodeSchema)

  type Definitions = map<nat, Definition>

  // ----- What the planner emits -----

  /** The positions of a declaration's relevant parameters, from position `from` on, in order. */
  function RelevantFrom(table: Table, decl: nat, from: nat): (positions: seq<nat>)
    requires decl in table && from <= |table[decl].params|
    ensures forall k :: 0 <= k < |positions| ==> from <= positions[k] < |table[decl].params| && Relevant(table, decl, positions[k])
    ensures forall k, l :: 0 <= k < l < |positions| ==> positions[k] < positions[l]
    ensures forall i :: from <= i < |table[decl].params| && Relevant(table, decl, i) ==> i in positions
    decreases |table[decl].params| - from
  {
    if from == |table[decl].params| then []
    else if Relevant(table, decl, from) then [from] + RelevantFrom(table, decl, from + 1)
    else RelevantFrom(table, decl, from + 1)
  }

  function RelevantPositions(table: Table, decl: nat): seq<nat>
    requires decl in table
  {
    RelevantFrom(table, decl, 0)
  }

  /** Each relevant parameter's slot. */
  function Slots(table: Table, decl: nat): map<string, nat>
    requires decl in table
  {
    var positions := RelevantPositions(table, decl);
    map k | 0 <= k < |positions| && Distinct(table[decl].params) :: table[decl].params[positions[k]] := k
  }

  /** The schema of a type written over the parameters in `slots`. */
  function Template(table: Table, t: Type, slots: map<string, nat>): EncodeSchema {
    match t
    case Scalar(kind) => ScalarEncode(kind)
    case Array(elem) => ArrayEncode(Template(table, elem, slots))
    case Dict(key, value) => DictEncode(Template(table, key, slots), Template(table, value, slots))
    case Nominal(decl, args) =>
      if decl in table && |args| == |table[decl].params| then
        var positions := RelevantPositions(table, decl);
        ReferenceEncode(decl, seq(|positions|, k requires 0 <= k < |positions| => Template(table, args[positions[k]], slots)))
      else ReferenceEncode(decl, [])
    case Exception(exception) => ExceptionEncode(exception)
    case Variable(name) => ParameterEncode(if name in slots then slots[name] else 0)
    case Unit => UnitEncode
  }

  /** A declaration's template: its fields over its own parameters. */
  function DefinitionOf(table: Table, decl: nat): Definition
    requires decl in table
  {
    var d := table[decl];
    Definition(|RelevantPositions(table, decl)|,
               NominalEncode(decl, d.isEnum,
                             seq(|d.fields|, i requires 0 <= i < |d.fields| => Template(table, d.fields[i], Slots(table, decl)))))
  }

  /** The template sees a type only through its canonical form. */
  lemma {:induction false} TemplateOfCanonical(table: Table, t: Type, slots: map<string, nat>)
    ensures Template(table, Canonical(table, t), slots) == Template(table, t, slots)
  {
    match t {
      case Array(elem) => TemplateOfCanonical(table, elem, slots);
      case Dict(key, value) =>
        TemplateOfCanonical(table, key, slots);
        TemplateOfCanonical(table, value, slots);
      case Nominal(decl, args) =>
        forall i | 0 <= i < |args|
          ensures Template(table, Canonical(table, args[i]), slots) == Template(table, args[i], slots)
        {
          TemplateOfCanonical(table, args[i], slots);
        }
      case _ =>
    }
  }

  // ----- Closed plans -----

  /** Every reference names a definition and gives it one argument per parameter; every parameter index is
      below the enclosing arity. */
  predicate WellBound(definitions: Definitions, e: EncodeSchema, arity: nat) {
    match e
    case ArrayEncode(elem) => WellBound(definitions, elem, arity)
    case DictEncode(key, value) => WellBound(definitions, key, arity) && WellBound(definitions, value, arity)
    case ParameterEncode(index) => index < arity
    case ReferenceEncode(decl, arguments) =>
      && decl in definitions && |arguments| == definitions[decl].arity
      && forall k :: 0 <= k < |arguments| ==> WellBound(definitions, arguments[k], arity)
    case NominalEncode(_, _, fields) => forall i :: 0 <= i < |fields| ==> WellBound(definitions, fields[i], arity)
    case UnitEncode => false
    case _ => true
  }

  predicate WellBoundPlan(definitions: Definitions, root: EncodeSchema) {
    && WellBound(definitions, root, 0)
    && forall decl :: decl in definitions ==> WellBound(definitions, definitions[decl].body, definitions[decl].arity)
  }

  /** The declarations a schema refers to. */
  function References(e: EncodeSchema): set<nat> {
    match e
    case ArrayEncode(elem) => References(elem)
    case DictEncode(key, value) => References(key) + References(value)
    case ReferenceEncode(decl, arguments) => {decl} + set k, d | 0 <= k < |arguments| && d in References(arguments[k]) :: d
    case NominalEncode(_, _, fields) => set i, d | 0 <= i < |fields| && d in References(fields[i]) :: d
    case _ => {}
  }

  /** An encodable type: no unit where it could show. */
  predicate Encodable(table: Table, t: Type) {
    match t
    case Array(elem) => Encodable(table, elem)
    case Dict(key, value) => Encodable(table, key) && Encodable(table, value)
    case Nominal(decl, args) => forall i :: 0 <= i < |args| && Relevant(table, decl, i) ==> Encodable(table, args[i])
    case Unit => false
    case _ => true
  }

  predicate EncodableTable(table: Table) {
    forall d :: d in table ==> forall i :: 0 <= i < |table[d].fields| ==> Encodable(table, table[d].fields[i])
  }

  predicate SlotsBelow(slots: map<string, nat>, arity: nat) {
    forall x :: x in slots ==> slots[x] < arity
  }

  lemma {:induction false} TemplateWellBound(table: Table, t: Type, slots: map<string, nat>, vars: set<string>,
                                             definitions: Definitions, arity: nat)
    requires Encodable(table, t) && Scoped(table, t, vars) && RelevantVariables(table, t) <= slots.Keys && SlotsBelow(slots, arity)
    requires References(Template(table, t, slots)) <= definitions.Keys
    requires forall d :: d in definitions ==> d in table && definitions[d].arity == |RelevantPositions(table, d)|
    ensures WellBound(definitions, Template(table, t, slots), arity)
  {
    match t {
      case Array(elem) => TemplateWellBound(table, elem, slots, vars, definitions, arity);
      case Dict(key, value) =>
        TemplateWellBound(table, key, slots, vars, definitions, arity);
        TemplateWellBound(table, value, slots, vars, definitions, arity);
      case Nominal(decl, args) =>
        var positions := RelevantPositions(table, decl);
        var e := Template(table, t, slots);
        forall k | 0 <= k < |positions|
          ensures WellBound(definitions, e.arguments[k], arity)
        {
          var i := positions[k];
          assert forall x :: x in RelevantVariables(table, args[i]) ==> x in RelevantVariables(table, t);
          assert forall d :: d in References(e.arguments[k]) ==> d in References(e);
          TemplateWellBound(table, args[i], slots, vars, definitions, arity);
        }
      case _ =>
    }
  }

  // ----- The planner -----

  function Size(t: Type): nat {
    match t
    case Array(elem) => 1 + Size(elem)
    case Dict(key, value) => 1 + Size(key) + Size(value)
    case Nominal(_, args) => 1 + SizeAll(args)
    case _ => 1
  }

  function SizeAll(ts: seq<Type>): nat {
    if ts == [] then 0 else Size(ts[0]) + SizeAll(ts[1..])
  }

  lemma {:induction false} SizeInAll(ts: seq<Type>, i: nat)
    requires i < |ts|
    ensures Size(ts[i]) <= SizeAll(ts)
  {
    if i > 0 {
      SizeInAll(ts[1..], i - 1);
    }
  }

  lemma {:induction false} CanonicalSize(table: Table, t: Type)
    ensures Size(Canonical(table, t)) <= Size(t)
  {
    match t {
      case Array(elem) => CanonicalSize(table, elem);
      case Dict(key, value) =>
        CanonicalSize(table, key);
        CanonicalSize(table, value);
      case Nominal(decl, args) =>
        var canonical := Canonical(table, t).args;
        forall i | 0 <= i < |args|
          ensures Size(canonical[i]) <= Size(args[i])
        {
          SizePositive(args[i]);
          CanonicalSize(table, args[i]);
        }
        SizeAllMonotone(canonical, args);
      case _ =>
    }
  }

  lemma SizePositive(t: Type)
    ensures Size(t) >= 1
  {
  }

  lemma {:induction false} SizeAllMonotone(a: seq<Type>, b: seq<Type>)
    requires |a| == |b| && forall i :: 0 <= i < |a| ==> Size(a[i]) <= Size(b[i])
    ensures SizeAll(a) <= SizeAll(b)
  {
    if a != [] {
      SizeAllMonotone(a[1..], b[1..]);
    }
  }

  /** Canonical arguments stay within the same scope and relevant variables. */
  lemma {:induction false} CanonicalScoped(table: Table, t: Type, vars: set<string>)
    requires Scoped(table, t, vars)
    ensures Scoped(table, Canonical(table, t), vars)
    ensures RelevantVariables(table, Canonical(table, t)) == RelevantVariables(table, t)
  {
    match t {
      case Array(elem) => CanonicalScoped(table, elem, vars);
      case Dict(key, value) =>
        CanonicalScoped(table, key, vars);
        CanonicalScoped(table, value, vars);
      case Nominal(decl, args) =>
        var canonical := Canonical(table, t).args;
        forall i | 0 <= i < |args|
          ensures Scoped(table, canonical[i], vars)
          ensures Relevant(table, decl, i) ==> RelevantVariables(table, canonical[i]) == RelevantVariables(table, args[i])
        {
          CanonicalScoped(table, args[i], vars);
        }
      case _ =>
    }
  }

  /** Every finished definition is its declaration's template, and refers only to declarations that are
      finished or still being compiled. */
  ghost predicate Sound(table: Table, definitions: Definitions, inProgress: set<nat>)
    requires Checked(table)
  {
    && inProgress <= table.Keys && definitions.Keys <= table.Keys && inProgress !! definitions.Keys
    && forall d :: d in definitions ==>
                     definitions[d] == DefinitionOf(table, d) && References(definitions[d].body) <= definitions.Keys + inProgress
  }

  lemma SoundBegin(table: Table, definitions: Definitions, inProgress: set<nat>, decl: nat)
    requires Checked(table) && Sound(table, definitions, inProgress) && decl in table && decl !in definitions && decl !in inProgress
    ensures Sound(table, definitions, inProgress + {decl})
  {
    hide DefinitionOf, References;
  }

  lemma SoundFinish(table: Table, definitions: Definitions, inProgress: set<nat>, decl: nat)
    requires Checked(table) && Sound(table, definitions, inProgress) && decl in inProgress
    requires decl in table && References(DefinitionOf(table, decl).body) <= definitions.Keys + inProgress
    ensures Sound(table, definitions[decl := DefinitionOf(table, decl)], inProgress - {decl})
  {
    hide DefinitionOf, References;
  }

  /** The declarations each declaration's template refers to. */
  ghost function TemplateGraph(table: Table): (g: Graph<nat>)
    ensures g.Keys == table.Keys
  {
    map d | d in table :: References(DefinitionOf(table, d).body)
  }

  /** Declarations whose templates refer to no others. */
  ghost predicate ClosedUnder(table: Table, decls: set<nat>) {
    forall d :: d in decls ==> d in table && References(DefinitionOf(table, d).body) <= decls
  }

  lemma {:induction false} ReferencesInTable(table: Table, t: Type, slots: map<string, nat>, vars: set<string>)
    requires Scoped(table, t, vars)
    ensures References(Template(table, t, slots)) <= table.Keys
  {
    match t {
      case Array(elem) => ReferencesInTable(table, elem, slots, vars);
      case Dict(key, value) =>
        ReferencesInTable(table, key, slots, vars);
        ReferencesInTable(table, value, slots, vars);
      case Nominal(decl, args) =>
        var arguments := Template(table, t, slots).arguments;
        forall k | 0 <= k < |arguments|
          ensures References(arguments[k]) <= table.Keys
        {
          ReferencesInTable(table, args[RelevantPositions(table, decl)[k]], slots, vars);
        }
      case _ =>
    }
  }

  lemma TemplateGraphCloses(table: Table)
    requires Checked(table)
    ensures Closed(TemplateGraph(table))
  {
    forall d, r | d in table && r in References(DefinitionOf(table, d).body)
      ensures r in table
    {
      var body := DefinitionOf(table, d).body;
      var i :| 0 <= i < |body.fields| && r in References(body.fields[i]);
      ReferencesInTable(table, table[d].fields[i], Slots(table, d), ParamSet(table[d]));
    }
  }

  /** What the type reaches through references is closed under them. */
  lemma ReachedIsClosed(table: Table, starts: set<nat>)
    requires Checked(table) && starts <= table.Keys
    ensures ClosedUnder(table, ReachSet(TemplateGraph(table), starts)) && starts <= ReachSet(TemplateGraph(table), starts)
  {
    hide References, DefinitionOf, Checked;
    var g := TemplateGraph(table);
    TemplateGraphCloses(table);
    forall d | d in starts
      ensures d in ReachSet(g, starts)
    {
      ReachesItself(g, d);
      assert ReachedFrom(g, starts, d);
    }
    forall d, r | d in ReachSet(g, starts) && r in g[d]
      ensures r in ReachSet(g, starts)
    {
      ReachedNext(g, starts, d, r);
    }
  }

  /** Declarations closed under references hold whatever theirs reach. */
  lemma ClosedHoldsReached(table: Table, starts: set<nat>, decls: set<nat>)
    requires ClosedUnder(table, decls) && starts <= decls
    ensures ReachSet(TemplateGraph(table), starts) <= decls
  {
    hide References, DefinitionOf;
    var g := TemplateGraph(table);
    forall b | b in ReachSet(g, starts)
      ensures b in decls
    {
      var a :| a in starts && Reaches(g, a, b);
      ClosedSetReaches(g, decls, a, b);
    }
  }

  lemma SoundIsClosed(table: Table, definitions: Definitions)
    requires Checked(table) && Sound(table, definitions, {})
    ensures ClosedUnder(table, definitions.Keys)
    ensures forall d :: d in definitions ==>
                          d in table && definitions[d] == DefinitionOf(table, d) && References(definitions[d].body) <= definitions.Keys
  {
    hide DefinitionOf, References, Checked;
  }

  class TemplatePlanner {
    const table: Table
    /** Declarations to stay within. */
    ghost const within: set<nat>
    var definitions: Definitions
    var inProgress: set<nat>

    ghost predicate Valid()
      reads this
    {
      && Checked(table) && Sound(table, definitions, inProgress)
      && ClosedUnder(table, within) && definitions.Keys + inProgress <= within
    }

    ghost function Pending(): set<nat>
      reads this
    {
      table.Keys - definitions.Keys - inProgress
    }

    constructor (table: Table, ghost within: set<nat>)
      requires Checked(table) && ClosedUnder(table, within)
      ensures this.table == table && this.within == within && Valid() && definitions == map[] && inProgress == {}
    {
      this.table, this.within := table, within;
      definitions := map[];
      inProgress := {};
    }

    twostate predicate Extends()
      reads this
    {
      && inProgress == old(inProgress)
      && old(definitions).Keys <= definitions.Keys
      && forall d :: d in old(definitions) ==> definitions[d] == old(definitions[d])
    }

    method Emit(current: Type, slots: map<string, nat>, ghost vars: set<string>) returns (e: EncodeSchema)
      requires Valid() && Scoped(table, current, vars) && RelevantVariables(table, current) <= slots.Keys
      requires References(Template(table, current, slots)) <= within
      modifies this
      ensures Valid() && Extends()
      ensures e == Template(table, current, slots)
      ensures References(e) <= definitions.Keys + inProgress
      decreases Pending(), Size(current), 1
    {
      hide Sound, ClosedUnder, DefinitionOf, Checked, Canonical, RelevantFrom;
      match current {
        case Scalar(kind) => e := ScalarEncode(kind);
        case Array(elem) =>
          var inner := Emit(elem, slots, vars);
          e := ArrayEncode(inner);
        case Dict(key, value) =>
          var keySchema := Emit(key, slots, vars);
          var valueSchema := Emit(value, slots, vars);
          e := DictEncode(keySchema, valueSchema);
        case Variable(name) => e := ParameterEncode(slots[name]);
        case Exception(exception) => e := ExceptionEncode(exception);
        case Unit => e := UnitEncode;
        case Nominal(_, _) => e := EmitReference(current, slots, vars);
      }
    }

    method EmitReference(current: Type, slots: map<string, nat>, ghost vars: set<string>) returns (e: EncodeSchema)
      requires Valid() && Scoped(table, current, vars) && RelevantVariables(table, current) <= slots.Keys && current.Nominal?
      requires References(Template(table, current, slots)) <= within
      modifies this
      ensures Valid() && Extends()
      ensures e == Template(table, current, slots)
      ensures References(e) <= definitions.Keys + inProgress
      decreases Pending(), Size(current), 0
    {
      var Nominal(decl, args) := current;
      ArgumentsReady(table, current, vars);
      ArgumentsWithin(table, current, slots, within);
      EnsureDefinition(decl);
      var arguments := EmitAll(CanonicalArguments(table, decl, args), slots, vars);
      e := ReferenceEncode(decl, arguments);
      ArgumentsTemplate(table, current, slots, arguments);
      ReferencesWithin(decl, arguments, definitions.Keys + inProgress);
    }

    /** Schemas of the first types, whose references are all known. */
    ghost predicate EmittedAs(types: seq<Type>, slots: map<string, nat>, schemas: seq<EncodeSchema>, known: set<nat>) {
      |schemas| <= |types|
      && forall i :: 0 <= i < |schemas| ==> schemas[i] == Template(table, types[i], slots) && References(schemas[i]) <= known
    }

    lemma EmittedNext(types: seq<Type>, slots: map<string, nat>, schemas: seq<EncodeSchema>, known: set<nat>, more: set<nat>)
      requires EmittedAs(types, slots, schemas, known) && known <= more && |schemas| < |types|
      requires References(Template(table, types[|schemas|], slots)) <= more
      ensures EmittedAs(types, slots, schemas + [Template(table, types[|schemas|], slots)], more)
    {
    }

    method EmitAll(types: seq<Type>, slots: map<string, nat>, ghost vars: set<string>) returns (schemas: seq<EncodeSchema>)
      requires Valid()
      requires forall i :: 0 <= i < |types| ==> Scoped(table, types[i], vars) && RelevantVariables(table, types[i]) <= slots.Keys
      requires forall i :: 0 <= i < |types| ==> References(Template(table, types[i], slots)) <= within
      modifies this
      ensures Valid() && Extends()
      ensures |schemas| == |types| && EmittedAs(types, slots, schemas, definitions.Keys + inProgress)
      decreases Pending(), SizeAll(types), 2
    {
      schemas := [];
      for k := 0 to |types|
        invariant Valid() && Extends()
        invariant |schemas| == k && EmittedAs(types, slots, schemas, definitions.Keys + inProgress)
      {
        SizeInAll(types, k);
        ghost var known := definitions.Keys + inProgress;
        var schema := Emit(types[k], slots, vars);
        EmittedNext(types, slots, schemas, known, definitions.Keys + inProgress);
        schemas := schemas + [schema];
      }
    }

    method EnsureDefinition(decl: nat)
      requires Valid() && decl in table && decl in within
      modifies this
      ensures Valid() && Extends() && decl in definitions.Keys + inProgress
      decreases Pending(), 0, 0
    {
      hide Sound, ClosedUnder, DefinitionOf, RelevantPositions, References, Template, RelevantFrom, Slots, Scoped, Size, SizeAll, Checked, RelevantVariables;
      if decl in definitions || decl in inProgress {
        return;
      }
      SoundBegin(table, definitions, inProgress, decl);
      inProgress := inProgress + {decl};
      var d := table[decl];
      var slots := Slots(table, decl);
      FieldsReady(table, decl);
      FieldsWithin(table, decl, within);
      var fields := EmitAll(d.fields, slots, ParamSet(d));
      DefinitionIs(table, decl, fields, definitions.Keys + inProgress);
      SoundFinish(table, definitions, inProgress, decl);
      definitions := definitions[decl := Definition(|RelevantPositions(table, decl)|, NominalEncode(decl, d.isEnum, fields))];
      inProgress := inProgress - {decl};
    }
  }

  lemma DefinitionIs(table: Table, decl: nat, fields: seq<EncodeSchema>, known: set<nat>)
    requires decl in table && |fields| == |table[decl].fields|
    requires forall i :: 0 <= i < |fields| ==>
                           fields[i] == Template(table, table[decl].fields[i], Slots(table, decl)) && References(fields[i]) <= known
    ensures DefinitionOf(table, decl)
         == Definition(|RelevantPositions(table, decl)|, NominalEncode(decl, table[decl].isEnum, fields))
    ensures References(DefinitionOf(table, decl).body) <= known
  {
    hide Template, RelevantFrom, Slots;
    assert fields == DefinitionOf(table, decl).body.fields;
  }

  lemma FieldsWithin(table: Table, decl: nat, within: set<nat>)
    requires ClosedUnder(table, within) && decl in within
    ensures decl in table
    ensures forall i :: 0 <= i < |table[decl].fields| ==> References(Template(table, table[decl].fields[i], Slots(table, decl))) <= within
  {
    hide Template, Slots, RelevantFrom;
    var body := DefinitionOf(table, decl).body;
    forall i, r | 0 <= i < |table[decl].fields| && r in References(Template(table, table[decl].fields[i], Slots(table, decl)))
      ensures r in within
    {
      assert r in References(body.fields[i]);
      assert r in References(body);
    }
  }

  lemma FieldsReady(table: Table, decl: nat)
    requires Checked(table) && decl in table
    ensures forall i :: 0 <= i < |table[decl].fields| ==>
                          && Scoped(table, table[decl].fields[i], ParamSet(table[decl]))
                          && RelevantVariables(table, table[decl].fields[i]) <= Slots(table, decl).Keys
  {
    SlotsCover(table, decl);
    hide Slots;
  }

  /** The relevant arguments of a nominal, in canonical form. */
  function CanonicalArguments(table: Table, decl: nat, args: seq<Type>): (arguments: seq<Type>)
    requires decl in table && |args| == |table[decl].params|
  {
    var positions := RelevantPositions(table, decl);
    seq(|positions|, k requires 0 <= k < |positions| => Canonical(table, args[positions[k]]))
  }

  lemma ArgumentsReady(table: Table, t: Type, vars: set<string>)
    requires t.Nominal? && Scoped(table, t, vars)
    ensures var arguments := CanonicalArguments(table, t.decl, t.args);
            && SizeAll(arguments) < Size(t)
            && forall k :: 0 <= k < |arguments| ==>
                             Scoped(table, arguments[k], vars) && RelevantVariables(table, arguments[k]) <= RelevantVariables(table, t)
  {
    var positions := RelevantPositions(table, t.decl);
    var arguments := CanonicalArguments(table, t.decl, t.args);
    forall k | 0 <= k < |positions|
      ensures Scoped(table, arguments[k], vars) && RelevantVariables(table, arguments[k]) <= RelevantVariables(table, t)
      ensures Size(arguments[k]) <= Size(t.args[positions[k]])
    {
      CanonicalSize(table, t.args[positions[k]]);
      CanonicalScoped(table, t.args[positions[k]], vars);
    }
    SizeAllSelected(t.args, positions, arguments, 0);
  }

  /** Selecting increasing positions and shrinking what stands there never grows the total size. */
  lemma {:induction false} SizeAllSelected(ts: seq<Type>, positions: seq<nat>, selected: seq<Type>, from: nat)
    requires from <= |ts| && |selected| == |positions|
    requires forall k :: 0 <= k < |positions| ==> from <= positions[k] < |ts| && Size(selected[k]) <= Size(ts[positions[k]])
    requires forall k, l :: 0 <= k < l < |positions| ==> positions[k] < positions[l]
    ensures SizeAll(selected) <= SizeAll(ts[from..])
    decreases |ts| - from
  {
    if from < |ts| {
      assert ts[from..][1..] == ts[from + 1..];
      if positions != [] && positions[0] == from {
        SizeAllSelected(ts, positions[1..], selected[1..], from + 1);
      } else {
        SizeAllSelected(ts, positions, selected, from + 1);
      }
    }
  }

  lemma ArgumentsTemplate(table: Table, t: Type, slots: map<string, nat>, arguments: seq<EncodeSchema>)
    requires t.Nominal? && t.decl in table && |t.args| == |table[t.decl].params|
    requires var canonical := CanonicalArguments(table, t.decl, t.args);
             |arguments| == |canonical| && forall k :: 0 <= k < |canonical| ==> arguments[k] == Template(table, canonical[k], slots)
    ensures Template(table, t, slots) == ReferenceEncode(t.decl, arguments)
  {
    var positions := RelevantPositions(table, t.decl);
    forall k | 0 <= k < |positions|
      ensures arguments[k] == Template(table, t.args[positions[k]], slots)
    {
      TemplateOfCanonical(table, t.args[positions[k]], slots);
    }
    assert arguments == Template(table, t, slots).arguments;
  }

  lemma ArgumentsWithin(table: Table, t: Type, slots: map<string, nat>, within: set<nat>)
    requires t.Nominal? && t.decl in table && |t.args| == |table[t.decl].params| && References(Template(table, t, slots)) <= within
    ensures t.decl in within
    ensures var arguments := CanonicalArguments(table, t.decl, t.args);
            forall k :: 0 <= k < |arguments| ==> References(Template(table, arguments[k], slots)) <= within
  {
    var arguments, e := CanonicalArguments(table, t.decl, t.args), Template(table, t, slots);
    assert t.decl in References(e);
    forall k, r | 0 <= k < |arguments| && r in References(Template(table, arguments[k], slots))
      ensures r in within
    {
      TemplateOfCanonical(table, t.args[RelevantPositions(table, t.decl)[k]], slots);
      assert r in References(e.arguments[k]);
      assert r in References(e);
    }
  }

  lemma ReferencesWithin(decl: nat, arguments: seq<EncodeSchema>, known: set<nat>)
    requires decl in known && forall l :: 0 <= l < |arguments| ==> References(arguments[l]) <= known
    ensures References(ReferenceEncode(decl, arguments)) <= known
  {
  }

  lemma SlotsCover(table: Table, decl: nat)
    requires Checked(table) && decl in table
    ensures Slots(table, decl).Keys == table[decl].relevant
    ensures SlotsBelow(Slots(table, decl), |RelevantPositions(table, decl)|)
  {
    var d := table[decl];
    var positions := RelevantPositions(table, decl);
    forall x | x in d.relevant
      ensures x in Slots(table, decl)
    {
      assert x in ParamSet(d);
      var i :| 0 <= i < |d.params| && d.params[i] == x;
      assert Relevant(table, decl, i);
      var k :| 0 <= k < |positions| && positions[k] == i;
      assert d.params[positions[k]] in Slots(table, decl);
    }
  }

  method BuildTemplateEncodePlan(typ: Type, table: Table) returns (root: EncodeSchema, definitions: Definitions)
    requires Checked(table) && EncodableTable(table) && Scoped(table, typ, {}) && Encodable(table, typ)
    ensures root == Template(table, typ, map[])
    ensures forall d :: d in definitions ==> d in table && definitions[d] == DefinitionOf(table, d)
    ensures definitions.Keys == ReachSet(TemplateGraph(table), References(root))
    ensures WellBoundPlan(definitions, root)
    ensures forall d :: d in definitions ==>
                          var parameters := set i | 0 <= i < |table[d].params| && table[d].params[i] in table[d].relevant;
                          && definitions[d].arity == |parameters|
                          && definitions[d].body.NominalEncode? && definitions[d].body.nominal == d
                          && definitions[d].body.isEnum == table[d].isEnum && |definitions[d].body.fields| == |table[d].fields|
  {
    hide ReachSet, ClosedUnder, DefinitionOf, References, Template, Sound, WellBoundPlan, Checked, EncodableTable, Encodable, Scoped, RelevantVariables;
    ghost var starts := References(Template(table, typ, map[]));
    ReferencesInTable(table, typ, map[], {});
    ReachedIsClosed(table, starts);
    var planner := new TemplatePlanner(table, ReachSet(TemplateGraph(table), starts));
    ScopedVariables(table, typ, {});
    root := planner.Emit(typ, map[], {});
    definitions := planner.definitions;
    SoundIsClosed(table, definitions);
    ClosedHoldsReached(table, starts, definitions.Keys);
    PlanWellBound(table, typ, definitions);
    forall d | d in definitions
      ensures definitions[d].arity == |set i | 0 <= i < |table[d].params| && table[d].params[i] in table[d].relevant|
      ensures definitions[d].body.NominalEncode? && definitions[d].body.nominal == d
      ensures definitions[d].body.isEnum == table[d].isEnum && |definitions[d].body.fields| == |table[d].fields|
    {
      DefinitionShape(table, d);
    }
  }

  /** A definition takes as many parameters as its declaration has relevant ones. */
  lemma DefinitionShape(table: Table, decl: nat)
    requires decl in table
    ensures var parameters := set i | 0 <= i < |table[decl].params| && table[decl].params[i] in table[decl].relevant;
            var definition := DefinitionOf(table, decl);
            && definition.arity == |parameters| && definition.body.NominalEncode? && definition.body.nominal == decl
            && definition.body.isEnum == table[decl].isEnum && |definition.body.fields| == |table[decl].fields|
  {
    var parameters := set i | 0 <= i < |table[decl].params| && table[decl].params[i] in table[decl].relevant;
    var positions := RelevantPositions(table, decl);
    assert forall i :: i in parameters <==> i in positions;
    CountOfIncreasing(positions, parameters);
  }

  lemma {:induction false} CountOfIncreasing(positions: seq<nat>, members: set<int>)
    requires forall k, l :: 0 <= k < l < |positions| ==> positions[k] < positions[l]
    requires forall i :: i in members <==> i in positions
    ensures |positions| == |members|
  {
    if positions != [] {
      var n := |positions| - 1;
      assert positions == positions[..n] + [positions[n]];
      CountOfIncreasing(positions[..n], members - {positions[n]});
    } else {
      assert forall i | i in members :: i in positions;
      assert members == {};
    }
  }

  lemma PlanWellBound(table: Table, typ: Type, definitions: Definitions)
    requires Checked(table) && EncodableTable(table) && Scoped(table, typ, {}) && Encodable(table, typ)
    requires References(Template(table, typ, map[])) <= definitions.Keys
    requires forall d :: d in definitions ==>
                           d in table && definitions[d] == DefinitionOf(table, d) && References(definitions[d].body) <= definitions.Keys
    ensures WellBoundPlan(definitions, Template(table, typ, map[]))
  {
    ScopedVariables(table, typ, {});
    TemplateWellBound(table, typ, map[], {}, definitions, 0);
    hide WellBound, References, Template;
    forall d | d in definitions
      ensures WellBound(definitions, definitions[d].body, definitions[d].arity)
    {
      DefinitionWellBound(table, d, definitions);
    }
  }

  lemma {:induction false} DefinitionWellBound(table: Table, decl: nat, definitions: Definitions)
    requires Checked(table) && EncodableTable(table) && decl in table
    requires References(DefinitionOf(table, decl).body) <= definitions.Keys
    requires forall d :: d in definitions ==> d in table && definitions[d] == DefinitionOf(table, d)
    ensures WellBound(definitions, DefinitionOf(table, decl).body, DefinitionOf(table, decl).arity)
  {
    SlotsCover(table, decl);
    var body := DefinitionOf(table, decl).body;
    forall i | 0 <= i < |body.fields|
      ensures WellBound(definitions, body.fields[i], DefinitionOf(table, decl).arity)
    {
      assert forall d :: d in References(body.fields[i]) ==> d in References(body);
      TemplateWellBound(table, table[decl].fields[i], Slots(table, decl), ParamSet(table[decl]), definitions, DefinitionOf(table, decl).arity);
    }
  }

  lemma {:induction false} ScopedVariables(table: Table, t: Type, vars: set<string>)
    requires Scoped(table, t, vars)
    ensures RelevantVariables(table, t) <= vars
  {
    match t {
      case Array(elem) => ScopedVariables(table, elem, vars);
      case Dict(key, value) =>
        ScopedVariables(table, key, vars);
        ScopedVariables(table, value, vars);
      case Nominal(decl, args) =>
        forall i | 0 <= i < |args|
          ensures RelevantVariables(table, args[i]) <= vars
        {
          ScopedVariables(table, args[i], vars);
        }
      case _ =>
    }
  }
}
