/** Non-associative comparisons: which chains put one ungrouped comparison directly under another. */
module InfixComparisons {
  import opened Options
  import opened InfixSyntax
  import opened InfixTrees

  /** Comparisons are builtin operators, so they all share one fixity. */
  predicate ComparisonFixities(s: Shape, comparisons: set<nat>) {
    forall j :: j in comparisons ==> j < |s.fixities| && s.fixities[j] == Fixity(COMPARISON_PRIORITY, LeftAssoc)
  }

  predicate RootIsComparison(t: Tree, comparisons: set<nat>) {
    t.Node? && t.j in comparisons
  }

  /** Some comparison has a comparison as its immediate operand. */
  predicate Conflict(t: Tree, comparisons: set<nat>) {
    match t
    case Leaf(_) => false
    case Neg(_, _, body) => Conflict(body, comparisons)
    case Node(j, left, right) =>
      || Conflict(left, comparisons)
      || Conflict(right, comparisons)
      || (j in comparisons && (RootIsComparison(left, comparisons) || RootIsComparison(right, comparisons)))
  }

  /** The first such comparison in the order operators are applied: those of the left operand, those of the
      right one, then the operator itself. */
  function FirstConflict(t: Tree, comparisons: set<nat>): (first: Option<nat>)
    ensures first.Some? <==> Conflict(t, comparisons)
  {
    match t
    case Leaf(_) => None
    case Neg(_, _, body) => FirstConflict(body, comparisons)
    case Node(j, left, right) =>
      var inLeft, inRight := FirstConflict(left, comparisons), FirstConflict(right, comparisons);
      if inLeft.Some? then inLeft
      else if inRight.Some? then inRight
      else if Conflict(t, comparisons) then Some(j) else None
  }

  /** The same condition read off the written chain: comparison b follows comparison a with only
      tighter operators between them and no `not` on any operand from a's right operand to b's left one. */
  predicate Chained(s: Shape, comparisons: set<nat>, a: nat, b: nat)
    requires s.Valid()
  {
    && a in comparisons && b in comparisons && a < b < |s.fixities|
    && (forall j :: a < j < b ==> s.fixities[j].priority > COMPARISON_PRIORITY)
    && (forall i :: a < i <= b ==> s.nots[i] == 0)
  }

  predicate HasChainedComparisons(s: Shape, comparisons: set<nat>, i: nat, f: nat)
    requires s.Valid()
  {
    exists a, b :: i <= a < b && b + 1 < f && Chained(s, comparisons, a, b)
  }

  /** A tree of tight operators ending in no `not` holds tight operators only, and no `not` at all
      beyond those of its first operand. */
  lemma {:induction false} TightTree(s: Shape, t: Tree, i: nat, k: nat, f: nat, minimum: int, j: nat)
    requires s.Valid() && Spans(s, t, i, k, f) && WellGrouped(s, t)
    requires RootAtLeast(s, t, minimum) && minimum >= NOT_PRIORITY && !EndsUnderNot(t)
    ensures k == s.nots[i]
    ensures i <= j < f - 1 ==> s.fixities[j].priority >= minimum
    ensures i < j < f ==> s.nots[j] == 0
  {
    match t {
      case Leaf(_) =>
      case Node(j', left, right) =>
        LeftRootAtLeast(s, left, s.fixities[j'].priority, minimum);
        TightTree(s, left, i, k, j' + 1, minimum, j);
        TightTree(s, right, j' + 1, 0, f, minimum, j);
    }
  }

  /** A loose operator inside a tight tree stands under a `not` written no later than it, and the tree ends under a `not`. */
  lemma {:induction false} LooseOperatorUnderNot(s: Shape, t: Tree, i: nat, k: nat, f: nat, minimum: int, j: nat)
    returns (u: nat)
    requires s.Valid() && Spans(s, t, i, k, f) && WellGrouped(s, t)
    requires RootAtLeast(s, t, minimum) && minimum >= NOT_PRIORITY
    requires i <= j < f - 1 && s.fixities[j].priority < minimum
    ensures EndsUnderNot(t)
    ensures i <= u <= j && s.nots[u] > 0
  {
    match t {
      case Neg(_, _, _) => u := i;
      case Node(j', left, right) =>
        LeftRootAtLeast(s, left, s.fixities[j'].priority, minimum);
        if j < j' {
          u := LooseOperatorUnderNot(s, left, i, k, j' + 1, minimum, j);
        } else {
          u := LooseOperatorUnderNot(s, right, j' + 1, 0, f, minimum, j);
        }
    }
  }

  lemma {:induction false} ConflictIsChained(s: Shape, t: Tree, i: nat, k: nat, f: nat, comparisons: set<nat>)
    requires s.Valid() && Spans(s, t, i, k, f) && WellGrouped(s, t) && ComparisonFixities(s, comparisons)
    requires Conflict(t, comparisons)
    ensures HasChainedComparisons(s, comparisons, i, f)
  {
    match t {
      case Neg(_, _, body) => ConflictIsChained(s, body, i, k + 1, f, comparisons);
      case Node(j, left, right) =>
        if Conflict(left, comparisons) {
          ConflictIsChained(s, left, i, k, j + 1, comparisons);
        } else if Conflict(right, comparisons) {
          ConflictIsChained(s, right, j + 1, 0, f, comparisons);
        } else {
          var a := left.j;
          forall p: nat {
            TightTree(s, left.right, a + 1, 0, j + 1, COMPARISON_PRIORITY + 1, p);
          }
          assert Chained(s, comparisons, a, j);
        }
    }
  }

  lemma {:induction false} ChainedIsConflict(s: Shape, t: Tree, i: nat, k: nat, f: nat, comparisons: set<nat>, a: nat, b: nat)
    requires s.Valid() && Spans(s, t, i, k, f) && WellGrouped(s, t) && ComparisonFixities(s, comparisons)
    requires i <= a && b + 1 < f && Chained(s, comparisons, a, b)
    ensures Conflict(t, comparisons)
  {
    match t {
      case Neg(_, _, body) => ChainedIsConflict(s, body, i, k + 1, f, comparisons, a, b);
      case Node(j, left, right) =>
        if j < a {
          ChainedIsConflict(s, right, j + 1, 0, f, comparisons, a, b);
        } else if b < j {
          ChainedIsConflict(s, left, i, k, j + 1, comparisons, a, b);
        } else if j < b {
          // b would stand under a `not` of the right operand, but no operand up to b carries one
          var u := LooseOperatorUnderNot(s, right, j + 1, 0, f, COMPARISON_PRIORITY + 1, b);
          assert false;
        } else {
          LeftRootIsComparison(s, left, i, k, comparisons, a, b);
        }
    }
  }

  lemma LeftRootIsComparison(s: Shape, left: Tree, i: nat, k: nat, comparisons: set<nat>, a: nat, b: nat)
    requires s.Valid() && Spans(s, left, i, k, b + 1) && WellGrouped(s, left) && ComparisonFixities(s, comparisons)
    requires i <= a && Chained(s, comparisons, a, b) && LeftOperandFits(s, left, COMPARISON_PRIORITY)
    ensures RootIsComparison(left, comparisons)
  {
    if left.Node? && left.j < a {
      var u := LooseOperatorUnderNot(s, left.right, left.j + 1, 0, b + 1, COMPARISON_PRIORITY + 1, a);
      assert false;
    } else if left.Node? && a < left.j {
      var u := LooseOperatorUnderNot(s, left.left, i, k, left.j + 1, COMPARISON_PRIORITY + 1, a);
      assert false;
    }
  }

  /** The main theorem on comparisons, for any stretch a well-grouped tree spans. */
  lemma ConflictIffChained(s: Shape, t: Tree, i: nat, k: nat, f: nat, comparisons: set<nat>)
    requires s.Valid() && Spans(s, t, i, k, f) && WellGrouped(s, t) && ComparisonFixities(s, comparisons)
    ensures Conflict(t, comparisons) <==> HasChainedComparisons(s, comparisons, i, f)
  {
    if Conflict(t, comparisons) {
      ConflictIsChained(s, t, i, k, f, comparisons);
    }
    if HasChainedComparisons(s, comparisons, i, f) {
      var a: nat, b: nat :| i <= a < b && b + 1 < f && Chained(s, comparisons, a, b);
      ChainedIsConflict(s, t, i, k, f, comparisons, a, b);
    }
  }
}
