/** The grouper itself, in three layers, each proved equal to the next. */
module InfixGrouping {
  import opened Options
  import opened InfixSyntax
  import opened InfixTrees
  import opened InfixComparisons

  // - `Grouper`, which pops prefix lists and collects the comparisons it has built, as the program does;
  // - `Read*`, the same computation with that state passed along;
  // - the tree that climbing on the chain's bare shape returns, with the expression each node stands for.

  datatype GroupError = MixedAssociativity(operator: nat) | ChainedComparison(operator: nat)

  datatype Result<T> = Ok(value: T) | Err(error: GroupError)

  datatype Chain = Chain(operands: seq<Operand>, operators: seq<Operator>, fixities: seq<Fixity>) {
    predicate Valid() {
      IsChain(operands, operators, fixities)
    }

    function Shape(): (s: Shape)
      requires Valid()
      ensures s.Valid()
    {
      InfixTrees.Shape(seq(|operands|, i requires 0 <= i < |operands| => |operands[i].prefixNots|), fixities)
    }

    /** The indices of the chain's comparison operators. */
    function Comparisons(): set<nat> {
      set j: nat | j < |operators| && IsComparison(operators[j])
    }
  }

  // ----- The expression an operator application builds -----

  function Applied(left: Expr, operator: Operator, right: Expr): Expr {
    if operator.name in BUILTIN_FIXITIES then BinaryOp(operator.name, left, right, operator.nodeId)
    else OperatorCall(operator.name, operator.calleeId, left, right, operator.nodeId)
  }

  predicate GroupedComparison(e: Expr, comparisons: set<nat>) {
    e.BinaryOp? && e.nodeId in comparisons
  }

  /** The expression a tree over the chain stands for. */
  function Build(c: Chain, t: Tree): Expr
    requires c.Valid()
  {
    match t
    case Leaf(i) => if i < |c.operands| then c.operands[i].expr else Other("", [])
    case Neg(i, k, body) =>
      UnaryNot(Build(c, body),
               if i < |c.operands| && k < |c.operands[i].prefixNots| then c.operands[i].prefixNots[k].nodeId else 0)
    case Node(j, left, right) =>
      if j < |c.operators| then Applied(Build(c, left), c.operators[j], Build(c, right)) else Other("", [])
  }

  /** An expression is what the program makes of a tree over the chain: operands and nots as written, each builtin
      operator applied, each other one called by its own name and callee. */
  predicate Represents(c: Chain, t: Tree, e: Expr)
    requires c.Valid()
  {
    match t
    case Leaf(i) => i < |c.operands| && e == c.operands[i].expr
    case Neg(i, k, body) =>
      && i < |c.operands| && k < |c.operands[i].prefixNots|
      && e.UnaryNot? && e.notId == c.operands[i].prefixNots[k].nodeId && Represents(c, body, e.operand)
    case Node(j, left, right) =>
      && j < |c.operators|
      && var operator := c.operators[j];
         if operator.name in BUILTIN_FIXITIES then
           e.BinaryOp? && e.op == operator.name && e.nodeId == operator.nodeId && Represents(c, left, e.left) && Represents(c, right, e.right)
         else
           && e.OperatorCall? && e.callee == operator.name && e.calleeId == operator.calleeId && e.callId == operator.nodeId
           && Represents(c, left, e.first) && Represents(c, right, e.second)
  }

  lemma {:induction false} BuildRepresents(c: Chain, t: Tree, i: nat, k: nat, f: nat)
    requires c.Valid() && Spans(c.Shape(), t, i, k, f)
    ensures Represents(c, t, Build(c, t))
  {
    match t {
      case Leaf(_) =>
      case Neg(_, _, body) => BuildRepresents(c, body, i, k + 1, f);
      case Node(j, left, right) =>
        BuildRepresents(c, left, i, k, j + 1);
        BuildRepresents(c, right, j + 1, 0, f);
    }
  }

  // ----- State passing -----

  datatype Step = Read(expr: Expr, following: nat, comparisons: set<nat>) | Rejected(error: GroupError) {
    function Outcome(): Result<(Expr, nat)> {
      if Read? then Ok((expr, following)) else Err(error)
    }
  }

  function ApplyOperator(c: Chain, left: Expr, j: nat, right: Expr, comparisons: set<nat>): Result<(Expr, set<nat>)>
    requires j < |c.operators|
  {
    var operator := c.operators[j];
    if !IsComparison(operator) then Ok((Applied(left, operator, right), comparisons))
    else if GroupedComparison(left, comparisons) || GroupedComparison(right, comparisons) then Err(ChainedComparison(j))
    else Ok((Applied(left, operator, right), comparisons + {operator.nodeId}))
  }

  function ReadPrefixed(c: Chain, i: nat, k: nat, comparisons: set<nat>): (r: Step)
    requires c.Valid() && i < |c.operands| && k <= |c.operands[i].prefixNots|
    ensures r.Read? ==> i < r.following <= |c.operands|
    decreases 2 * (|c.operands| - i), |c.operands[i].prefixNots| - k, 0
  {
    if k < |c.operands[i].prefixNots| then
      var r := ReadClimb(c, NOT_PRIORITY, i, k + 1, comparisons);
      if r.Rejected? then r else r.(expr := UnaryNot(r.expr, c.operands[i].prefixNots[k].nodeId))
    else
      Read(c.operands[i].expr, i + 1, comparisons)
  }

  function ReadClimb(c: Chain, minimum: int, i: nat, k: nat, comparisons: set<nat>): (r: Step)
    requires c.Valid() && i < |c.operands| && k <= |c.operands[i].prefixNots|
    ensures r.Read? ==> i < r.following <= |c.operands|
    decreases 2 * (|c.operands| - i), |c.operands[i].prefixNots| - k, 1
  {
    var r := ReadPrefixed(c, i, k, comparisons);
    if r.Rejected? then r else ReadFrom(c, minimum, r.expr, r.following, r.comparisons)
  }

  function ReadFrom(c: Chain, minimum: int, left: Expr, following: nat, comparisons: set<nat>): (r: Step)
    requires c.Valid() && 0 < following <= |c.operands|
    ensures r.Read? ==> following <= r.following <= |c.operands|
    decreases 2 * (|c.operands| - following) + 1, 0, 0
  {
    if following - 1 < |c.operators| && c.fixities[following - 1].priority >= minimum then
      var r := ReadClimb(c, RightMinimum(c.fixities[following - 1]), following, 0, comparisons);
      if r.Rejected? then r
      else
        match ApplyOperator(c, left, following - 1, r.expr, r.comparisons)
        case Err(error) => Rejected(error)
        case Ok((applied, comparisons')) => ReadFrom(c, minimum, applied, r.following, comparisons')
    else
      Read(left, following, comparisons)
  }

  /** Reading one operator and what stands to its right. */
  function ReadNext(c: Chain, left: Expr, following: nat, comparisons: set<nat>): (r: Step)
    requires c.Valid() && 0 < following <= |c.operators|
    ensures r.Read? ==> following < r.following <= |c.operands|
  {
    var r := ReadClimb(c, RightMinimum(c.fixities[following - 1]), following, 0, comparisons);
    if r.Rejected? then r
    else
      match ApplyOperator(c, left, following - 1, r.expr, r.comparisons)
      case Err(error) => Rejected(error)
      case Ok((applied, comparisons')) => Read(applied, r.following, comparisons')
  }

  /** Reading on from here comes to a given end. */
  ghost predicate Leads(c: Chain, minimum: int, left: Expr, following: nat, comparisons: set<nat>, goal: Step)
    requires c.Valid() && 0 < following <= |c.operands|
  {
    ReadFrom(c, minimum, left, following, comparisons) == goal
  }

  lemma LeadsNext(c: Chain, minimum: int, left: Expr, following: nat, comparisons: set<nat>, goal: Step)
    requires c.Valid() && 0 < following <= |c.operators| && c.fixities[following - 1].priority >= minimum
    requires Leads(c, minimum, left, following, comparisons, goal)
    ensures var r := ReadNext(c, left, following, comparisons);
            if r.Rejected? then goal == r else Leads(c, minimum, r.expr, r.following, r.comparisons, goal)
  {
  }

  lemma LeadsEnd(c: Chain, minimum: int, left: Expr, following: nat, comparisons: set<nat>, goal: Step)
    requires c.Valid() && 0 < following <= |c.operands| && Leads(c, minimum, left, following, comparisons, goal)
    requires following - 1 < |c.operators| ==> c.fixities[following - 1].priority < minimum
    ensures goal == Read(left, following, comparisons)
  {
  }

  // ----- State passing builds the climbed tree -----

  predicate Builds(c: Chain, r: Step, t: Tree, f: nat)
    requires c.Valid()
  {
    r.Read? ==> r.expr == Build(c, t) && r.following == f
  }

  lemma {:induction false} ReadPrefixedBuilds(c: Chain, i: nat, k: nat, comparisons: set<nat>)
    requires c.Valid() && i < |c.operands| && k <= |c.operands[i].prefixNots|
    ensures var (t, f) := Prefixed(c.Shape(), i, k); Builds(c, ReadPrefixed(c, i, k, comparisons), t, f)
    decreases 2 * (|c.operands| - i), |c.operands[i].prefixNots| - k, 0
  {
    if k < |c.operands[i].prefixNots| {
      ReadClimbBuilds(c, NOT_PRIORITY, i, k + 1, comparisons);
    }
  }

  /** Whenever a read succeeds, it returns the expression of the tree climbed on the bare shape. */
  lemma {:induction false} ReadClimbBuilds(c: Chain, minimum: int, i: nat, k: nat, comparisons: set<nat>)
    requires c.Valid() && i < |c.operands| && k <= |c.operands[i].prefixNots|
    ensures var (t, f) := Climb(c.Shape(), minimum, i, k); Builds(c, ReadClimb(c, minimum, i, k, comparisons), t, f)
    decreases 2 * (|c.operands| - i), |c.operands[i].prefixNots| - k, 1
  {
    ReadPrefixedBuilds(c, i, k, comparisons);
    var (left, following) := Prefixed(c.Shape(), i, k);
    var r := ReadPrefixed(c, i, k, comparisons);
    if r.Read? {
      ReadFromBuilds(c, minimum, left, following, r.comparisons);
    }
  }

  lemma {:induction false} ReadFromBuilds(c: Chain, minimum: int, left: Tree, following: nat, comparisons: set<nat>)
    requires c.Valid() && 0 < following <= |c.operands|
    ensures var (t, f) := ClimbFrom(c.Shape(), minimum, left, following);
            Builds(c, ReadFrom(c, minimum, Build(c, left), following, comparisons), t, f)
    decreases 2 * (|c.operands| - following) + 1, 0, 0
  {
    hide ReadClimb, Climb, IsComparison, GroupedComparison;
    if following - 1 < |c.operators| && c.fixities[following - 1].priority >= minimum {
      var j := following - 1;
      var tighter := RightMinimum(c.fixities[j]);
      ReadClimbBuilds(c, tighter, following, 0, comparisons);
      var r := ReadClimb(c, tighter, following, 0, comparisons);
      if r.Read? {
        var (right, next) := Climb(c.Shape(), tighter, following, 0);
        var applied := ApplyOperator(c, Build(c, left), j, r.expr, r.comparisons);
        if applied.Ok? {
          ReadFromBuilds(c, minimum, Node(j, left, right), next, applied.value.1);
        }
      }
    }
  }

  // ----- State passing rejects exactly the conflicts -----

  /** Node ids are allotted one per parsed node: the operators of a chain have distinct ids, none of
      which an operand already carries. */
  predicate DistinctIds(c: Chain) {
    && (forall i, j :: 0 <= i < j < |c.operators| ==> c.operators[i].nodeId != c.operators[j].nodeId)
    && (forall i, j :: 0 <= i < |c.operands| && 0 <= j < |c.operators| && c.operands[i].expr.BinaryOp? ==>
                         c.operands[i].expr.nodeId != c.operators[j].nodeId)
  }

  /** The collected ids are ids of the chain's own comparisons, never of an operand. */
  predicate OwnComparisons(c: Chain, comparisons: set<nat>) {
    && (forall i :: 0 <= i < |c.operands| && c.operands[i].expr.BinaryOp? ==> c.operands[i].expr.nodeId !in comparisons)
    && (forall j :: 0 <= j < |c.operators| && c.operators[j].nodeId in comparisons ==> IsComparison(c.operators[j]))
  }

  predicate HoldsComparisons(c: Chain, comparisons: set<nat>, from: nat, to: nat)
    requires to <= |c.operators|
  {
    forall j :: from <= j < to && IsComparison(c.operators[j]) ==> c.operators[j].nodeId in comparisons
  }

  /** The step is rejected exactly when the tree conflicts, for its first conflict, and otherwise has collected the comparisons it applied. */
  predicate Agrees(c: Chain, r: Step, t: Tree, i: nat, f: nat, comparisons: set<nat>)
    requires c.Valid() && i < f <= |c.operands|
  {
    && (r.Rejected? <==> Conflict(t, c.Comparisons()))
    && (r.Rejected? ==> FirstConflict(t, c.Comparisons()).Some? && r.error == ChainedComparison(FirstConflict(t, c.Comparisons()).value))
    && (r.Read? ==>
          && comparisons <= r.comparisons
          && OwnComparisons(c, r.comparisons) && HoldsComparisons(c, r.comparisons, i, f - 1))
  }

  lemma GroupedComparisonIsRoot(c: Chain, t: Tree, i: nat, k: nat, f: nat, comparisons: set<nat>)
    requires c.Valid() && OwnComparisons(c, comparisons)
    requires Spans(c.Shape(), t, i, k, f) && HoldsComparisons(c, comparisons, i, f - 1)
    ensures GroupedComparison(Build(c, t), comparisons) <==> RootIsComparison(t, c.Comparisons())
  {
    if t.Node? && IsComparison(c.operators[t.j]) {
      assert c.operators[t.j].name in BUILTIN_FIXITIES;
    }
  }

  /** Applying operator j to two operands read without conflict is rejected exactly when one of them is a
      comparison under a comparison. */
  lemma ApplyAgrees(c: Chain, j: nat, left: Tree, right: Tree, i: nat, k: nat, f: nat, comparisons: set<nat>)
    requires c.Valid() && DistinctIds(c) && OwnComparisons(c, comparisons)
    requires Spans(c.Shape(), Node(j, left, right), i, k, f)
    requires HoldsComparisons(c, comparisons, i, j) && HoldsComparisons(c, comparisons, j + 1, f - 1)
    requires !Conflict(left, c.Comparisons()) && !Conflict(right, c.Comparisons())
    ensures var applied := Node(j, left, right);
            match ApplyOperator(c, Build(c, left), j, Build(c, right), comparisons)
            case Err(error) => FirstConflict(applied, c.Comparisons()) == Some(j) && error == ChainedComparison(j)
            case Ok((e, held)) =>
              && !Conflict(applied, c.Comparisons()) && e == Build(c, applied)
              && comparisons <= held && OwnComparisons(c, held) && HoldsComparisons(c, held, i, f - 1)
  {
    hide GroupedComparison, RootIsComparison;
    GroupedComparisonIsRoot(c, left, i, k, j + 1, comparisons);
    GroupedComparisonIsRoot(c, right, j + 1, 0, f, comparisons);
  }

  lemma {:induction false} ReadPrefixedAgrees(c: Chain, i: nat, k: nat, comparisons: set<nat>)
    requires c.Valid() && DistinctIds(c) && OwnComparisons(c, comparisons)
    requires i < |c.operands| && k <= |c.operands[i].prefixNots|
    ensures var (t, f) := Prefixed(c.Shape(), i, k);
            Agrees(c, ReadPrefixed(c, i, k, comparisons), t, i, f, comparisons)
    decreases 2 * (|c.operands| - i), |c.operands[i].prefixNots| - k, 0
  {
    if k < |c.operands[i].prefixNots| {
      ReadClimbAgrees(c, NOT_PRIORITY, i, k + 1, comparisons);
    }
  }

  lemma {:induction false} ReadClimbAgrees(c: Chain, minimum: int, i: nat, k: nat, comparisons: set<nat>)
    requires c.Valid() && DistinctIds(c) && OwnComparisons(c, comparisons)
    requires i < |c.operands| && k <= |c.operands[i].prefixNots|
    ensures var (t, f) := Climb(c.Shape(), minimum, i, k);
            Agrees(c, ReadClimb(c, minimum, i, k, comparisons), t, i, f, comparisons)
    decreases 2 * (|c.operands| - i), |c.operands[i].prefixNots| - k, 1
  {
    ReadPrefixedAgrees(c, i, k, comparisons);
    ReadPrefixedBuilds(c, i, k, comparisons);
    PrefixedSound(c.Shape(), i, k);
    var (left, following) := Prefixed(c.Shape(), i, k);
    ClimbKeepsConflict(c, minimum, left, following);
    var r := ReadPrefixed(c, i, k, comparisons);
    if r.Read? {
      ReadFromAgrees(c, minimum, left, following, i, k, r.comparisons);
    }
  }

  lemma {:induction false} ReadFromAgrees(c: Chain, minimum: int, left: Tree, following: nat, i: nat, k: nat, comparisons: set<nat>)
    requires c.Valid() && DistinctIds(c) && OwnComparisons(c, comparisons)
    requires Spans(c.Shape(), left, i, k, following) && !Conflict(left, c.Comparisons())
    requires HoldsComparisons(c, comparisons, i, following - 1)
    ensures var (t, f) := ClimbFrom(c.Shape(), minimum, left, following);
            Agrees(c, ReadFrom(c, minimum, Build(c, left), following, comparisons), t, i, f, comparisons)
    decreases 2 * (|c.operands| - following) + 1, 0, 1
  {
    if following - 1 < |c.operators| && c.fixities[following - 1].priority >= minimum {
      var (right, next) := Climb(c.Shape(), RightMinimum(c.fixities[following - 1]), following, 0);
      var applied := Node(following - 1, left, right);
      NextAgrees(c, left, following, i, k, comparisons);
      ReadFromNext(c, minimum, Build(c, left), following, comparisons);
      ClimbKeepsConflict(c, minimum, applied, next);
      var r := ReadNext(c, Build(c, left), following, comparisons);
      if r.Read? {
        ReadFromAgrees(c, minimum, applied, next, i, k, r.comparisons);
      }
    }
  }

  /** Reading one operator agrees with the node it makes. */
  lemma {:induction false} NextAgrees(c: Chain, left: Tree, following: nat, i: nat, k: nat, comparisons: set<nat>)
    requires c.Valid() && DistinctIds(c) && OwnComparisons(c, comparisons)
    requires Spans(c.Shape(), left, i, k, following) && !Conflict(left, c.Comparisons())
    requires HoldsComparisons(c, comparisons, i, following - 1) && following <= |c.operators|
    ensures var (right, next) := Climb(c.Shape(), RightMinimum(c.fixities[following - 1]), following, 0);
            var applied := Node(following - 1, left, right);
            var r := ReadNext(c, Build(c, left), following, comparisons);
            && Spans(c.Shape(), applied, i, k, next) && Agrees(c, r, applied, i, next, comparisons)
            && (r.Read? ==> r.expr == Build(c, applied) && r.following == next)
    decreases 2 * (|c.operands| - following) + 1, 0, 0
  {
    hide OwnComparisons, DistinctIds, ReadClimb, Climb, Build;
    var j := following - 1;
    var tighter := RightMinimum(c.fixities[j]);
    ReadClimbAgrees(c, tighter, following, 0, comparisons);
    ReadClimbBuilds(c, tighter, following, 0, comparisons);
    ClimbSound(c.Shape(), tighter, following, 0);
    var (right, next) := Climb(c.Shape(), tighter, following, 0);
    var r := ReadClimb(c, tighter, following, 0, comparisons);
    if r.Read? {
      ApplyAgrees(c, j, left, right, i, k, next, r.comparisons);
    }
  }

  /** Reading on is reading one operator and then reading on. */
  lemma ReadFromNext(c: Chain, minimum: int, left: Expr, following: nat, comparisons: set<nat>)
    requires c.Valid() && 0 < following <= |c.operators| && c.fixities[following - 1].priority >= minimum
    ensures var r := ReadNext(c, left, following, comparisons);
            ReadFrom(c, minimum, left, following, comparisons)
            == if r.Rejected? then r else ReadFrom(c, minimum, r.expr, r.following, r.comparisons)
  {
  }

  lemma {:induction false} ClimbKeepsConflict(c: Chain, minimum: int, left: Tree, following: nat)
    requires c.Valid() && 0 < following <= |c.operands|
    ensures Conflict(left, c.Comparisons()) ==>
              FirstConflict(ClimbFrom(c.Shape(), minimum, left, following).0, c.Comparisons()) == FirstConflict(left, c.Comparisons())
    decreases |c.operands| - following
  {
    if following - 1 < |c.operators| && c.fixities[following - 1].priority >= minimum {
      var (right, next) := Climb(c.Shape(), RightMinimum(c.fixities[following - 1]), following, 0);
      ClimbKeepsConflict(c, minimum, Node(following - 1, left, right), next);
    }
  }

  // ----- A whole chain -----

  predicate Mixes(c: Chain, i: nat, j: nat)
    requires c.Valid()
  {
    i < j < |c.fixities| && c.fixities[i].priority == c.fixities[j].priority && c.fixities[i].assoc != c.fixities[j].assoc
  }

  predicate MixesBefore(c: Chain, n: nat)
    requires c.Valid()
  {
    exists i, j :: 0 <= i < j < n && Mixes(c, i, j)
  }

  /** The grouping of a chain: a mixed priority is reported first, at the earliest operator that mixes. */
  ghost predicate IsGrouping(c: Chain, r: Result<Expr>)
    requires c.Valid()
  {
    if MixesBefore(c, |c.fixities|) then
      && r.Err? && r.error.MixedAssociativity?
      && r.error.operator < |c.fixities|
      && !MixesBefore(c, r.error.operator) && MixesBefore(c, r.error.operator + 1)
    else
      var step := ReadClimb(c, 0, 0, 0, {});
      r == if step.Read? then Ok(step.expr) else Err(step.error)
  }

  lemma GroupingIsUnique(c: Chain, r: Result<Expr>, r': Result<Expr>)
    requires c.Valid() && IsGrouping(c, r) && IsGrouping(c, r')
    ensures r == r'
  {
    if MixesBefore(c, |c.fixities|) {
      MixesMonotone(c, r.error.operator + 1, r'.error.operator);
      MixesMonotone(c, r'.error.operator + 1, r.error.operator);
    }
  }

  lemma MixesMonotone(c: Chain, m: nat, n: nat)
    requires c.Valid()
    ensures m <= n && MixesBefore(c, m) ==> MixesBefore(c, n)
  {
    if MixesBefore(c, m) {
      var i, j :| 0 <= i < j < m && Mixes(c, i, j);
      assert Mixes(c, i, j);
    }
  }

  /** What a grouped chain becomes: the expression of its one well-grouped tree. */
  lemma GroupingIsTheWellGroupedTree(c: Chain, r: Result<Expr>, t: Tree)
    requires c.Valid() && IsGrouping(c, r) && r.Ok? && NonNegative(c.Shape())
    requires WellGrouped(c.Shape(), t) && Yield(t) == Tokens(c.Shape().nots, 0, 0, |c.operands|)
    ensures r.value == Build(c, t)
  {
    GroupIsTheWellGroupedTree(c.Shape(), t);
    ReadClimbBuilds(c, 0, 0, 0, {});
  }

  lemma MixesBeforeIff(c: Chain, n: nat)
    requires c.Valid() && n <= |c.fixities|
    ensures MixesBefore(c, n) <==>
            exists i, j :: 0 <= i < j < n && c.fixities[i].priority == c.fixities[j].priority && c.fixities[i].assoc != c.fixities[j].assoc
  {
    if i, j :| 0 <= i < j < n && c.fixities[i].priority == c.fixities[j].priority && c.fixities[i].assoc != c.fixities[j].assoc {
      assert Mixes(c, i, j);
    }
  }

  lemma MixedAt(c: Chain, at: nat)
    requires c.Valid() && at < |c.fixities| && !MixesBefore(c, at) && MixesBefore(c, at + 1)
    ensures exists i :: 0 <= i < at && c.fixities[i].priority == c.fixities[at].priority && c.fixities[i].assoc != c.fixities[at].assoc
    ensures forall i, j :: 0 <= i < j < at && c.fixities[i].priority == c.fixities[j].priority ==> c.fixities[i].assoc == c.fixities[j].assoc
  {
    MixesBeforeIff(c, at);
    var i, j :| 0 <= i < j < at + 1 && Mixes(c, i, j);
    assert j == at;
  }

  /** When a chain is rejected: exactly when a priority is mixed, or two comparisons of its grouped
      stretch are chained. */
  lemma GroupingFailsIff(c: Chain, r: Result<Expr>)
    requires c.Valid() && DistinctIds(c) && IsGrouping(c, r) && UsesBuiltinFixities(c.operators, c.fixities)
    ensures r.Err? <==>
            || (exists i, j :: 0 <= i < j < |c.fixities| && c.fixities[i].priority == c.fixities[j].priority && c.fixities[i].assoc != c.fixities[j].assoc)
            || HasChainedComparisons(c.Shape(), c.Comparisons(), 0, Group(c.Shape()).1)
    ensures r.Err? && r.error.MixedAssociativity? ==>
              var at := r.error.operator;
              && at < |c.fixities|
              && (exists i :: 0 <= i < at && c.fixities[i].priority == c.fixities[at].priority && c.fixities[i].assoc != c.fixities[at].assoc)
              && forall i, j :: 0 <= i < j < at && c.fixities[i].priority == c.fixities[j].priority ==> c.fixities[i].assoc == c.fixities[j].assoc
    ensures r.Err? && r.error.ChainedComparison? ==>
              !MixesBefore(c, |c.fixities|) && FirstConflict(Group(c.Shape()).0, c.Comparisons()) == Some(r.error.operator)
  {
    hide OwnComparisons, HoldsComparisons, HasChainedComparisons, ReadClimb, Climb, Conflict, FirstConflict, Mixes, MixesBefore;
    MixesBeforeIff(c, |c.fixities|);
    if MixesBefore(c, |c.fixities|) {
      MixedAt(c, r.error.operator);
    }
    var s := c.Shape();
    var (t, f) := Group(s);
    ClimbSound(s, 0, 0, 0);
    ReadClimbAgrees(c, 0, 0, 0, {});
    assert ComparisonFixities(s, c.Comparisons());
    ConflictIffChained(s, t, 0, 0, f, c.Comparisons());
  }

  /** A grouping represents the tree grouped on fixities alone. */
  lemma GroupingRepresents(c: Chain, e: Expr)
    requires c.Valid() && IsGrouping(c, Ok(e))
    ensures Represents(c, Group(c.Shape()).0, e)
  {
    hide Represents, Build;
    var (t, f) := Group(c.Shape());
    ClimbSound(c.Shape(), 0, 0, 0);
    ReadClimbBuilds(c, 0, 0, 0, {});
    BuildRepresents(c, t, 0, 0, f);
  }

  // ----- The program's grouper -----

  predicate IsSuffix<T(==)>(pending: seq<T>, written: seq<T>) {
    |pending| <= |written| && pending == written[|written| - |pending|..]
  }

  function Cleared<T>(lists: seq<seq<T>>, from: nat, to: nat): seq<seq<T>> {
    seq(|lists|, i requires 0 <= i < |lists| => if from <= i < to then [] else lists[i])
  }

  lemma ClearedAfter<T>(lists: seq<seq<T>>, from: nat, list: seq<T>, to: nat)
    requires from < |lists| && from < to
    ensures Cleared(lists[from := list], from, to) == Cleared(lists, from, to)
  {
  }

  lemma ClearedTwice<T>(lists: seq<seq<T>>, from: nat, mid: nat, to: nat)
    requires from <= mid <= to
    ensures Cleared(Cleared(lists, from, mid), mid, to) == Cleared(lists, from, to)
  {
  }

  class Grouper {
    const chain: Chain
    var prefixNots: seq<seq<PrefixNot>>
    var comparisons: set<nat>

    ghost predicate Valid()
      reads this
    {
      && chain.Valid()
      && |prefixNots| == |chain.operands|
      && forall i :: 0 <= i < |prefixNots| ==> IsSuffix(prefixNots[i], chain.operands[i].prefixNots)
    }

    /** How many of operand i's nots are consumed. */
    ghost function Taken(i: nat): nat
      requires Valid() && i < |prefixNots|
      reads this
    {
      |chain.operands[i].prefixNots| - |prefixNots[i]|
    }

    ghost predicate Unread(from: nat)
      requires |prefixNots| == |chain.operands|
      reads this
    {
      forall i :: from <= i < |prefixNots| ==> prefixNots[i] == chain.operands[i].prefixNots
    }

    constructor (chain: Chain)
      requires chain.Valid()
      ensures this.chain == chain && Valid() && Unread(0) && comparisons == {}
    {
      this.chain := chain;
      prefixNots := seq(|chain.operands|, i requires 0 <= i < |chain.operands| => chain.operands[i].prefixNots);
      comparisons := {};
    }

    /** Reading from operand `index` consumes the nots of every operand up to the following one, and no other. */
    twostate predicate Consumed(index: nat, step: Step)
      reads this
    {
      step.Read? ==>
        && comparisons == step.comparisons
        && prefixNots == Cleared(old(prefixNots), index, step.following)
    }

    method Prefixed(index: nat) returns (r: Result<(Expr, nat)>)
      requires Valid() && index < |prefixNots| && Unread(index + 1)
      modifies this
      ensures var step := ReadPrefixed(chain, index, old(Taken(index)), old(comparisons));
              r == step.Outcome() && Consumed(index, step)
      decreases 2 * (|prefixNots| - index), |prefixNots[index]|, 0
    {
      if prefixNots[index] != [] {
        var prefix := prefixNots[index][0];
        ghost var before := prefixNots;
        prefixNots := prefixNots[index := prefixNots[index][1..]];
        var body := Climb(NOT_PRIORITY, index);
        if body.Err? {
          return body;
        }
        var (expr, next) := body.value;
        ClearedAfter(before, index, before[index][1..], next);
        r := Ok((UnaryNot(expr, prefix.nodeId), next));
      } else {
        assert prefixNots == Cleared(prefixNots, index, index + 1);
        r := Ok((chain.operands[index].expr, index + 1));
      }
    }

    method Climb(minimum: int, index: nat) returns (r: Result<(Expr, nat)>)
      requires Valid() && index < |prefixNots| && Unread(index + 1)
      modifies this
      ensures var step := ReadClimb(chain, minimum, index, old(Taken(index)), old(comparisons));
              r == step.Outcome() && Consumed(index, step)
      decreases 2 * (|prefixNots| - index), |prefixNots[index]|, 1
    {
      ghost var before := prefixNots;
      ghost var goal := ReadClimb(chain, minimum, index, Taken(index), comparisons);
      var first := Prefixed(index);
      if first.Err? {
        return first;
      }
      var (left, following) := first.value;
      while following - 1 < |chain.operators|
        invariant index < following <= |before|
        invariant prefixNots == Cleared(before, index, following)
        invariant Leads(chain, minimum, left, following, comparisons, goal)
        decreases |before| - following
      {
        var operator := following - 1;
        var Fixity(priority, assoc) := chain.fixities[operator];
        if priority < minimum {
          break;
        }
        LeadsNext(chain, minimum, left, following, comparisons, goal);
        ClearedValid(before, index, following);
        r := TakeNext(left, following);
        if r.Err? {
          return;
        }
        ClearedTwice(before, index, following, r.value.1);
        left, following := r.value.0, r.value.1;
      }
      LeadsEnd(chain, minimum, left, following, comparisons, goal);
      r := Ok((left, following));
    }

    /** Climb to the right of the next operator and apply it. */
    method TakeNext(left: Expr, following: nat) returns (r: Result<(Expr, nat)>)
      requires Valid() && 0 < following <= |chain.operators| && Unread(following) && Taken(following) == 0
      modifies this
      ensures var step := ReadNext(chain, left, following, old(comparisons));
              r == step.Outcome() && Consumed(following, step)
      decreases 2 * (|prefixNots| - following) + 1, 0, 0
    {
      var Fixity(priority, assoc) := chain.fixities[following - 1];
      r := Climb(if assoc == LeftAssoc then priority + 1 else priority, following);
      if r.Err? {
        return;
      }
      var (right, next) := r.value;
      var applied := Apply(left, following - 1, right);
      if applied.Err? {
        return Err(applied.error);
      }
      r := Ok((applied.value, next));
    }

    lemma ClearedValid(before: seq<seq<PrefixNot>>, index: nat, following: nat)
      requires chain.Valid() && |before| == |chain.operands| && index < following <= |before|
      requires forall i :: 0 <= i < |before| ==> IsSuffix(before[i], chain.operands[i].prefixNots)
      requires forall i :: index < i < |before| ==> before[i] == chain.operands[i].prefixNots
      requires prefixNots == Cleared(before, index, following)
      ensures Valid() && Unread(following)
      ensures following < |prefixNots| ==> Taken(following) == 0
    {
      forall i | 0 <= i < |prefixNots|
        ensures IsSuffix(prefixNots[i], chain.operands[i].prefixNots)
      {
        if index <= i < following {
          assert prefixNots[i] == [];
        } else {
          assert prefixNots[i] == before[i];
        }
      }
    }

    method Apply(left: Expr, j: nat, right: Expr) returns (r: Result<Expr>)
      requires chain.Valid() && j < |chain.operators|
      modifies this`comparisons
      ensures match ApplyOperator(chain, left, j, right, old(comparisons))
              case Ok((applied, held)) => r == Ok(applied) && comparisons == held
              case Err(error) => r == Err(error) && comparisons == old(comparisons)
    {
      var operator := chain.operators[j];
      if operator.name !in BUILTIN_FIXITIES {
        assert !IsComparison(operator);
        return Ok(OperatorCall(operator.name, operator.calleeId, left, right, operator.nodeId));
      }
      if operator.name in NON_ASSOCIATIVE {
        if GroupedComparison(left, comparisons) || GroupedComparison(right, comparisons) {
          return Err(ChainedComparison(j));
        }
        comparisons := comparisons + {operator.nodeId};
      }
      return Ok(BinaryOp(operator.name, left, right, operator.nodeId));
    }
  }

  /** The first operator whose associativity differs from an earlier one's of the same priority, if any. */
  method FirstMixed(chain: Chain) returns (at: nat)
    requires chain.Valid()
    ensures at <= |chain.operators| && !MixesBefore(chain, at)
    ensures at < |chain.operators| ==> exists j :: 0 <= j < at && Mixes(chain, j, at)
  {
    var associativity: map<int, Assoc> := map[];
    for i := 0 to |chain.operators|
      invariant !MixesBefore(chain, i)
      invariant forall p :: p in associativity <==> exists j :: 0 <= j < i && chain.fixities[j].priority == p
      invariant forall j :: 0 <= j < i ==> associativity[chain.fixities[j].priority] == chain.fixities[j].assoc
    {
      var Fixity(priority, assoc) := chain.fixities[i];
      if priority !in associativity {
        associativity := associativity[priority := assoc];
      } else if associativity[priority] != assoc {
        ghost var j :| 0 <= j < i && chain.fixities[j].priority == priority;
        assert Mixes(chain, j, i);
        return i;
      }
    }
    at := |chain.operators|;
  }

  /** Group one chain whose i-th operator has the i-th fixity. */
  method GroupInfix(chain: Chain) returns (r: Result<Expr>)
    requires chain.Valid()
    ensures IsGrouping(chain, r)
    ensures r.Ok? ==> Represents(chain, Group(chain.Shape()).0, r.value)
  {
    var mixed := FirstMixed(chain);
    if mixed < |chain.operators| {
      MixesMonotone(chain, mixed + 1, |chain.fixities|);
      return Err(MixedAssociativity(mixed));
    }
    var grouper := new Grouper(chain);
    var grouped := grouper.Climb(0, 0);
    r := if grouped.Ok? then Ok(grouped.value.0) else Err(grouped.error);
    if r.Ok? {
      GroupingRepresents(chain, r.value);
    }
  }
}
