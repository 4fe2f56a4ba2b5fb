/** Types, the table of declarations they name, and what a type means as a schema: its inlined shape to any depth. */
module SchemaTypes {

  // A declaration keeps one type per field, in member order; everything an emitted node copies unchanged from
  // the declaration (names, JSON names, zones, aliases, defaults, member tags) is stood for by its identity.

  datatype ScalarKind = Text | Int | Decimal | Bool | Json

  datatype Type =
    | Scalar(kind: ScalarKind)
    | Array(elem: Type)
    | Dict(key: Type, value: Type)
    | Nominal(decl: nat, args: seq<Type>)
    | Exception(exception: nat)
    | Variable(name: string)
    | Unit

  /** `relevant` names the parameters that can affect the declaration's schema. */
  datatype Declaration = Declaration(isEnum: bool, params: seq<string>, fields: seq<Type>, relevant: set<string>)

  type Table = map<nat, Declaration>

  type Substitution = map<string, Type>

  // ----- Well-formedness -----

  /** Every nominal is declared and fully applied, and every variable is among `vars`. */
  predicate Scoped(table: Table, t: Type, vars: set<string>) {
    match t
    case Scalar(_) => true
    case Array(elem) => Scoped(table, elem, vars)
    case Dict(key, value) => Scoped(table, key, vars) && Scoped(table, value, vars)
    case Nominal(decl, args) =>
      decl in table && |args| == |table[decl].params| && forall i :: 0 <= i < |args| ==> Scoped(table, args[i], vars)
    case Exception(_) => true
    case Variable(name) => name in vars
    case Unit => true
  }

  function ParamSet(d: Declaration): set<string> {
    set i | 0 <= i < |d.params| :: d.params[i]
  }

  predicate Distinct<T(==)>(s: seq<T>) {
    forall i, j :: 0 <= i < j < |s| ==> s[i] != s[j]
  }

  /** The variables that reach a position of t which can affect its schema: an argument counts only
      where the declaration's parameter is relevant. */
  function RelevantVariables(table: Table, t: Type): set<string> {
    match t
    case Scalar(_) => {}
    case Array(elem) => RelevantVariables(table, elem)
    case Dict(key, value) => RelevantVariables(table, key) + RelevantVariables(table, value)
    case Nominal(decl, args) =>
      set i, x | 0 <= i < |args| && Relevant(table, decl, i) && x in RelevantVariables(table, args[i]) :: x
    case Exception(_) => {}
    case Variable(name) => {name}
    case Unit => {}
  }

  predicate Relevant(table: Table, decl: nat, i: nat) {
    decl in table && i < |table[decl].params| && table[decl].params[i] in table[decl].relevant
  }

  /** A checked table: fields are scoped to their declaration's parameters, and every variable reaching a
      schema position of a field is one of the relevant parameters. */
  predicate Checked(table: Table) {
    forall d :: d in table ==>
                  && Distinct(table[d].params)
                  && table[d].relevant <= ParamSet(table[d])
                  && forall i :: 0 <= i < |table[d].fields| ==>
                                   && Scoped(table, table[d].fields[i], ParamSet(table[d]))
                                   && RelevantVariables(table, table[d].fields[i]) <= table[d].relevant
  }

  // ----- Substitution and canonical form -----

  function Subst(sigma: Substitution, t: Type): Type {
    match t
    case Scalar(_) => t
    case Array(elem) => Array(Subst(sigma, elem))
    case Dict(key, value) => Dict(Subst(sigma, key), Subst(sigma, value))
    case Nominal(decl, args) => Nominal(decl, seq(|args|, i requires 0 <= i < |args| => Subst(sigma, args[i])))
    case Exception(_) => t
    case Variable(name) => if name in sigma then sigma[name] else t
    case Unit => t
  }

  /** Erase the arguments that cannot affect the schema. */
  function Canonical(table: Table, t: Type): Type {
    match t
    case Scalar(_) => t
    case Array(elem) => Array(Canonical(table, elem))
    case Dict(key, value) => Dict(Canonical(table, key), Canonical(table, value))
    case Nominal(decl, args) =>
      Nominal(decl, seq(|args|, i requires 0 <= i < |args| => if Relevant(table, decl, i) then Canonical(table, args[i]) else Unit))
    case Exception(_) => t
    case Variable(_) => t
    case Unit => t
  }

  function Binding(params: seq<string>, args: seq<Type>): Substitution
    requires |params| == |args|
  {
    map i | 0 <= i < |params| && Distinct(params) :: params[i] := args[i]
  }

  /** The field types of a declaration at given arguments. */
  function FieldTypes(table: Table, decl: nat, args: seq<Type>): (fields: seq<Type>)
    requires decl in table && |args| == |table[decl].params|
    ensures |fields| == |table[decl].fields|
  {
    seq(|table[decl].fields|, i requires 0 <= i < |table[decl].fields| =>
      Subst(Binding(table[decl].params, args), table[decl].fields[i]))
  }

  // ----- Meaning: the inlined shape, cut at a number of nominal levels -----

  datatype KeyForm = ObjectText | ObjectStringified | Entries

  datatype Shape =
    | ScalarShape(kind: ScalarKind)
    | ArrayShape(elem: Shape)
    | DictShape(form: KeyForm, key: Shape, value: Shape)
    | NominalShape(decl: nat, fields: seq<Shape>)
    | ExceptionShape(exception: nat)
    | VariableShape(name: string)
    | UnitShape
    | Cut

  predicate PlainEnum(table: Table, decl: nat) {
    decl in table && table[decl].isEnum && table[decl].fields == []
  }

  /** The wire form of a dict, told from the outermost shape of its key type. */
  function KeyFormOf(table: Table, key: Type): KeyForm {
    match key
    case Scalar(kind) => if kind == Text then ObjectText else if kind == Json then Entries else ObjectStringified
    case Nominal(decl, _) => if PlainEnum(table, decl) then ObjectStringified else Entries
    case _ => Entries
  }

  function Inlined(table: Table, t: Type, depth: nat): Shape
    decreases depth, t
  {
    match t
    case Scalar(kind) => ScalarShape(kind)
    case Array(elem) => ArrayShape(Inlined(table, elem, depth))
    case Dict(key, value) => DictShape(KeyFormOf(table, key), Inlined(table, key, depth), Inlined(table, value, depth))
    case Nominal(decl, args) =>
      if depth == 0 || decl !in table || |args| != |table[decl].params| then Cut
      else
        var fields := FieldTypes(table, decl, args);
        NominalShape(decl, seq(|fields|, i requires 0 <= i < |fields| => Inlined(table, fields[i], depth - 1)))
    case Exception(exception) => ExceptionShape(exception)
    case Variable(name) => VariableShape(name)
    case Unit => UnitShape
  }

  // ----- Canonical form and substitution -----

  lemma {:induction false} CanonicalIdempotent(table: Table, t: Type)
    ensures Canonical(table, Canonical(table, t)) == Canonical(table, t)
  {
    match t {
      case Array(elem) => CanonicalIdempotent(table, elem);
      case Dict(key, value) =>
        CanonicalIdempotent(table, key);
        CanonicalIdempotent(table, value);
      case Nominal(decl, args) =>
        forall i | 0 <= i < |args|
          ensures Canonical(table, Canonical(table, args[i])) == Canonical(table, args[i])
        {
          CanonicalIdempotent(table, args[i]);
        }
      case _ =>
    }
  }

  /** Two substitutions agree on the given variables up to canonical form. */
  predicate AgreeCanonically(table: Table, sigma: Substitution, tau: Substitution, vars: set<string>) {
    forall x :: x in vars ==> x in sigma && x in tau && Canonical(table, sigma[x]) == Canonical(table, tau[x])
  }

  /** Only what the relevant variables are replaced by, up to canonical form, shows in the canonical form. */
  lemma {:induction false} SubstCanonical(table: Table, sigma: Substitution, tau: Substitution, t: Type)
    requires AgreeCanonically(table, sigma, tau, RelevantVariables(table, t))
    ensures Canonical(table, Subst(sigma, t)) == Canonical(table, Subst(tau, t))
  {
    match t {
      case Array(elem) => SubstCanonical(table, sigma, tau, elem);
      case Dict(key, value) =>
        SubstCanonical(table, sigma, tau, key);
        SubstCanonical(table, sigma, tau, value);
      case Nominal(decl, args) =>
        forall i | 0 <= i < |args| && Relevant(table, decl, i)
          ensures Canonical(table, Subst(sigma, args[i])) == Canonical(table, Subst(tau, args[i]))
        {
          assert forall x :: x in RelevantVariables(table, args[i]) ==> x in RelevantVariables(table, t);
          SubstCanonical(table, sigma, tau, args[i]);
        }
      case _ =>
    }
  }

  lemma FieldTypesCanonical(table: Table, decl: nat, args: seq<Type>, args': seq<Type>, i: nat)
    requires Checked(table) && decl in table && |args| == |args'| == |table[decl].params| && i < |table[decl].fields|
    requires forall j :: 0 <= j < |args| && Relevant(table, decl, j) ==> Canonical(table, args[j]) == Canonical(table, args'[j])
    ensures Canonical(table, FieldTypes(table, decl, args)[i]) == Canonical(table, FieldTypes(table, decl, args')[i])
  {
    hide Subst, Canonical, RelevantVariables;
    var d := table[decl];
    var sigma, tau := Binding(d.params, args), Binding(d.params, args');
    forall x | x in RelevantVariables(table, d.fields[i])
      ensures x in sigma && x in tau && Canonical(table, sigma[x]) == Canonical(table, tau[x])
    {
      assert x in ParamSet(d);
      var j :| 0 <= j < |d.params| && d.params[j] == x;
      assert Relevant(table, decl, j);
      assert sigma[d.params[j]] == args[j] && tau[d.params[j]] == args'[j];
    }
    SubstCanonical(table, sigma, tau, d.fields[i]);
  }

  /** Types with the same canonical form mean the same at every depth: phantom arguments never show. */
  lemma {:induction false} SameCanonicalSameMeaning(table: Table, t: Type, t': Type, depth: nat)
    requires Checked(table) && Canonical(table, t) == Canonical(table, t')
    ensures Inlined(table, t, depth) == Inlined(table, t', depth)
    decreases depth, t, 1
  {
    match t {
      case Array(elem) => SameCanonicalSameMeaning(table, elem, t'.elem, depth);
      case Dict(key, value) =>
        SameCanonicalSameMeaning(table, key, t'.key, depth);
        SameCanonicalSameMeaning(table, value, t'.value, depth);
      case Nominal(decl, args) =>
        SameArguments(table, t, t');
        if depth > 0 && decl in table && |args| == |table[decl].params| {
          SameNominalSameMeaning(table, t, t', depth);
        }
      case _ =>
    }
  }

  lemma {:induction false} SameNominalSameMeaning(table: Table, t: Type, t': Type, depth: nat)
    requires Checked(table) && t.Nominal? && t'.Nominal? && t'.decl == t.decl && |t'.args| == |t.args|
    requires t.decl in table && |t.args| == |table[t.decl].params| && depth > 0
    requires forall i :: 0 <= i < |t.args| && Relevant(table, t.decl, i) ==> Canonical(table, t.args[i]) == Canonical(table, t'.args[i])
    ensures Inlined(table, t, depth) == Inlined(table, t', depth)
    decreases depth, t, 0
  {
    hide Inlined, Canonical, FieldTypes, Checked;
    forall i: nat | i < |table[t.decl].fields|
      ensures Inlined(table, FieldTypes(table, t.decl, t.args)[i], depth - 1)
           == Inlined(table, FieldTypes(table, t.decl, t'.args)[i], depth - 1)
    {
      FieldTypesCanonical(table, t.decl, t.args, t'.args, i);
      SameCanonicalSameMeaning(table, FieldTypes(table, t.decl, t.args)[i], FieldTypes(table, t.decl, t'.args)[i], depth - 1);
    }
    SameFieldsSameMeaning(table, t.decl, t.args, t'.args, depth);
  }

  lemma SameFieldsSameMeaning(table: Table, decl: nat, args: seq<Type>, args': seq<Type>, depth: nat)
    requires decl in table && |args| == |args'| == |table[decl].params| && depth > 0
    requires forall i: nat | i < |table[decl].fields| ::
               Inlined(table, FieldTypes(table, decl, args)[i], depth - 1) == Inlined(table, FieldTypes(table, decl, args')[i], depth - 1)
    ensures Inlined(table, Nominal(decl, args), depth) == Inlined(table, Nominal(decl, args'), depth)
  {
    assert Inlined(table, Nominal(decl, args), depth).fields == Inlined(table, Nominal(decl, args'), depth).fields;
  }

  lemma {:induction false} SameArguments(table: Table, t: Type, t': Type)
    requires t.Nominal? && Canonical(table, t) == Canonical(table, t')
    ensures t'.Nominal? && t'.decl == t.decl && |t'.args| == |t.args|
    ensures forall i :: 0 <= i < |t.args| && Relevant(table, t.decl, i) ==> Canonical(table, t.args[i]) == Canonical(table, t'.args[i])
  {
    var a, a' := Canonical(table, t).args, Canonical(table, t').args;
    forall i | 0 <= i < |t.args| && Relevant(table, t.decl, i)
      ensures Canonical(table, t.args[i]) == Canonical(table, t'.args[i])
    {
      assert a[i] == a'[i];
    }
  }

  /** The canonical type means what the type means. */
  lemma CanonicalKeepsMeaning(table: Table, t: Type, depth: nat)
    requires Checked(table)
    ensures Inlined(table, Canonical(table, t), depth) == Inlined(table, t, depth)
  {
    CanonicalIdempotent(table, t);
    SameCanonicalSameMeaning(table, Canonical(table, t), t, depth);
  }
}
