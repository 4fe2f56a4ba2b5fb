/** Precedence climbing on the bare shape of a chain gives its one and only well-grouped reading. */
module InfixTrees {
  import opened InfixSyntax

  // The bare shape says how many `not`s each operand carries and which fixity each operator has.

  datatype Shape = Shape(nots: seq<nat>, fixities: seq<Fixity>) {
    predicate Valid() {
      |nots| == |fixities| + 1
    }
  }

  /** `Leaf(i)` is operand i; `Neg(i, k, _)` is the k-th `not` of operand i; `Node(j, _, _)` applies operator j. */
  datatype Tree = Leaf(i: nat) | Neg(i: nat, k: nat, body: Tree) | Node(j: nat, left: Tree, right: Tree)

  /** Read operand i, whose first k `not`s are already consumed. */
  function Prefixed(s: Shape, i: nat, k: nat): (r: (Tree, nat))
    requires s.Valid() && i < |s.nots| && k <= s.nots[i]
    ensures i < r.1 <= |s.nots|
    decreases 2 * (|s.nots| - i), s.nots[i] - k, 0
  {
    if k < s.nots[i] then
      var (body, following) := Climb(s, NOT_PRIORITY, i, k + 1);
      (Neg(i, k, body), following)
    else
      (Leaf(i), i + 1)
  }

  function Climb(s: Shape, minimum: int, i: nat, k: nat): (r: (Tree, nat))
    requires s.Valid() && i < |s.nots| && k <= s.nots[i]
    ensures i < r.1 <= |s.nots|
    decreases 2 * (|s.nots| - i), s.nots[i] - k, 1
  {
    var (left, following) := Prefixed(s, i, k);
    ClimbFrom(s, minimum, left, following)
  }

  /** The climbing loop, entered with `left` already read up to operand `following`. */
  function ClimbFrom(s: Shape, minimum: int, left: Tree, following: nat): (r: (Tree, nat))
    requires s.Valid() && 0 < following <= |s.nots|
    ensures following <= r.1 <= |s.nots|
    decreases 2 * (|s.nots| - following) + 1, 0, 0
  {
    if following - 1 < |s.fixities| && s.fixities[following - 1].priority >= minimum then
      var (right, next) := Climb(s, RightMinimum(s.fixities[following - 1]), following, 0);
      ClimbFrom(s, minimum, Node(following - 1, left, right), next)
    else
      (left, following)
  }

  // ----- Yield: the tokens of a tree, in order -----

  datatype Token = NotToken(i: nat, k: nat) | OperandToken(i: nat) | OperatorToken(j: nat)

  function Yield(t: Tree): seq<Token> {
    match t
    case Leaf(i) => [OperandToken(i)]
    case Neg(i, k, body) => [NotToken(i, k)] + Yield(body)
    case Node(j, left, right) => Yield(left) + [OperatorToken(j)] + Yield(right)
  }

  /** The chain as written, from the k-th `not` of operand i up to operand f, exclusive. */
  function Tokens(nots: seq<nat>, i: nat, k: nat, f: nat): seq<Token>
    requires i < f <= |nots| && k <= nots[i]
    decreases f - i, nots[i] - k
  {
    if k < nots[i] then [NotToken(i, k)] + Tokens(nots, i, k + 1, f)
    else if i + 1 < f then [OperandToken(i), OperatorToken(i)] + Tokens(nots, i + 1, 0, f)
    else [OperandToken(i)]
  }

  /** Structural form of `Yield(t) == Tokens(s.nots, i, k, f)`; see `SpansIsYield`. */
  predicate Spans(s: Shape, t: Tree, i: nat, k: nat, f: nat)
    requires s.Valid()
  {
    i < f <= |s.nots| && k <= s.nots[i] &&
    match t
    case Leaf(i') => i' == i && k == s.nots[i] && f == i + 1
    case Neg(i', k', body) => i' == i && k' == k && k < s.nots[i] && Spans(s, body, i, k + 1, f)
    case Node(j, left, right) => i <= j && j + 1 < f && Spans(s, left, i, k, j + 1) && Spans(s, right, j + 1, 0, f)
  }

  lemma {:induction false} TokensSplit(s: Shape, i: nat, k: nat, j: nat, f: nat)
    requires s.Valid() && i <= j && j + 1 < f <= |s.nots| && k <= s.nots[i]
    ensures Tokens(s.nots, i, k, f) == Tokens(s.nots, i, k, j + 1) + [OperatorToken(j)] + Tokens(s.nots, j + 1, 0, f)
    decreases j - i, s.nots[i] - k
  {
    if k < s.nots[i] {
      TokensSplit(s, i, k + 1, j, f);
    } else if i < j {
      TokensSplit(s, i + 1, 0, j, f);
    }
  }

  lemma {:induction false} OperatorsOfTokens(s: Shape, i: nat, k: nat, f: nat, j: nat)
    requires s.Valid() && i < f <= |s.nots| && k <= s.nots[i]
    ensures OperatorToken(j) in Tokens(s.nots, i, k, f) <==> i <= j && j + 1 < f
    decreases f - i, s.nots[i] - k
  {
    if k < s.nots[i] {
      OperatorsOfTokens(s, i, k + 1, f, j);
    } else if i + 1 < f {
      OperatorsOfTokens(s, i + 1, 0, f, j);
    }
  }

  lemma SplitIsUnique<T>(a: seq<T>, b: seq<T>, c: seq<T>, d: seq<T>, x: T)
    requires a + [x] + b == c + [x] + d
    requires x !in c && x !in d
    ensures a == c && b == d
  {
    var whole := a + [x] + b;
    assert whole[|a|] == x;
    assert forall p :: 0 <= p < |c| ==> whole[p] == c[p];
    assert forall p :: |c| < p < |whole| ==> whole[p] == d[p - |c| - 1];
    assert a == whole[..|a|] && c == whole[..|c|];
    assert b == whole[|a| + 1..] && d == whole[|c| + 1..];
  }

  /** A tree spans a stretch of the chain exactly when its yield is that stretch, token for token. */
  lemma {:induction false} SpansIsYield(s: Shape, t: Tree, i: nat, k: nat, f: nat)
    requires s.Valid() && i < f <= |s.nots| && k <= s.nots[i]
    ensures Spans(s, t, i, k, f) <==> Yield(t) == Tokens(s.nots, i, k, f)
    decreases t, 1
  {
    match t {
      case Leaf(i') =>
        if Yield(t) == Tokens(s.nots, i, k, f) {
          assert Tokens(s.nots, i, k, f)[0] == OperandToken(i');
          assert |Tokens(s.nots, i, k, f)| == 1;
        }
      case Neg(i', k', body) =>
        if Yield(t) == Tokens(s.nots, i, k, f) {
          assert Tokens(s.nots, i, k, f)[0] == NotToken(i', k');
          assert Yield(body) == Yield(t)[1..] == Tokens(s.nots, i, k + 1, f);
        }
        if i' == i && k' == k && k < s.nots[i] {
          SpansIsYield(s, body, i, k + 1, f);
        }
      case Node(_, _, _) => NodeSpansIsYield(s, t, i, k, f);
    }
  }

  lemma {:induction false} NodeSpansIsYield(s: Shape, t: Tree, i: nat, k: nat, f: nat)
    requires s.Valid() && i < f <= |s.nots| && k <= s.nots[i] && t.Node?
    ensures Spans(s, t, i, k, f) <==> Yield(t) == Tokens(s.nots, i, k, f)
    decreases t, 0
  {
    hide Tokens;
    var j := t.j;
    if Yield(t) == Tokens(s.nots, i, k, f) {
      YieldSplits(s, t, i, k, f);
    }
    if i <= j && j + 1 < f {
      SpansIsYield(s, t.left, i, k, j + 1);
      SpansIsYield(s, t.right, j + 1, 0, f);
      TokensSplit(s, i, k, j, f);
    }
  }

  lemma YieldSplits(s: Shape, t: Tree, i: nat, k: nat, f: nat)
    requires s.Valid() && i < f <= |s.nots| && k <= s.nots[i] && t.Node? && Yield(t) == Tokens(s.nots, i, k, f)
    ensures i <= t.j && t.j + 1 < f
    ensures Yield(t.left) == Tokens(s.nots, i, k, t.j + 1) && Yield(t.right) == Tokens(s.nots, t.j + 1, 0, f)
  {
    hide Tokens;
    var j := t.j;
    assert Yield(t)[|Yield(t.left)|] == OperatorToken(j);
    OperatorsOfTokens(s, i, k, f, j);
    TokensSplit(s, i, k, j, f);
    OperatorsOfTokens(s, i, k, j + 1, j);
    OperatorsOfTokens(s, j + 1, 0, f, j);
    SplitIsUnique(Yield(t.left), Yield(t.right), Tokens(s.nots, i, k, j + 1), Tokens(s.nots, j + 1, 0, f), OperatorToken(j));
  }

  // ----- Well-groupedness: the local rules -----

  predicate RootAtLeast(s: Shape, t: Tree, minimum: int) {
    t.Node? ==> t.j < |s.fixities| && s.fixities[t.j].priority >= minimum
  }

  /** Whether the last operand of the tree stands under a `not` of the tree. */
  predicate EndsUnderNot(t: Tree) {
    match t
    case Leaf(_) => false
    case Neg(_, _, _) => true
    case Node(_, _, right) => EndsUnderNot(right)
  }

  /** A left operand binds tighter, or as tight when its own operator groups to the left; and a
      `not` at its right edge would have swallowed an operator of the `not` priority or more. */
  predicate LeftOperandFits(s: Shape, left: Tree, priority: int) {
    && (left.Node? ==>
          && left.j < |s.fixities|
          && var inner := s.fixities[left.j];
             inner.priority > priority || (inner.priority == priority && inner.assoc == LeftAssoc))
    && (EndsUnderNot(left) ==> priority < NOT_PRIORITY)
  }

  predicate WellGrouped(s: Shape, t: Tree) {
    match t
    case Leaf(_) => true
    case Neg(_, _, body) => WellGrouped(s, body) && RootAtLeast(s, body, NOT_PRIORITY)
    case Node(j, left, right) =>
      && j < |s.fixities|
      && WellGrouped(s, left) && WellGrouped(s, right)
      && LeftOperandFits(s, left, s.fixities[j].priority)
      && RootAtLeast(s, right, RightMinimum(s.fixities[j]))
  }

  // ----- Soundness: the climb returns a well-grouped tree with the yield it read -----

  /** No operator or `not` on the tree's right edge captures an operator of this priority. */
  predicate Stops(s: Shape, t: Tree, priority: int) {
    match t
    case Leaf(_) => true
    case Neg(_, _, body) => priority < NOT_PRIORITY && Stops(s, body, priority)
    case Node(j, _, right) =>
      j < |s.fixities| && priority < RightMinimum(s.fixities[j]) && Stops(s, right, priority)
  }

  predicate StopsBefore(s: Shape, t: Tree, f: nat)
    requires s.Valid() && 0 < f <= |s.nots|
  {
    f - 1 < |s.fixities| ==> Stops(s, t, s.fixities[f - 1].priority)
  }

  /** What the climb has established of a tree it read from (i, k) up to f. */
  predicate Grouped(s: Shape, t: Tree, i: nat, k: nat, f: nat)
    requires s.Valid()
  {
    Spans(s, t, i, k, f) && WellGrouped(s, t) && StopsBefore(s, t, f)
  }

  predicate ExhaustedAt(s: Shape, f: nat, minimum: int)
    requires s.Valid() && 0 < f
  {
    f - 1 < |s.fixities| ==> s.fixities[f - 1].priority < minimum
  }

  lemma {:induction false} PrefixedSound(s: Shape, i: nat, k: nat)
    requires s.Valid() && i < |s.nots| && k <= s.nots[i]
    ensures var (t, f) := Prefixed(s, i, k); Grouped(s, t, i, k, f) && !t.Node?
    decreases 2 * (|s.nots| - i), s.nots[i] - k, 0
  {
    if k < s.nots[i] {
      ClimbSound(s, NOT_PRIORITY, i, k + 1);
    }
  }

  lemma {:induction false} ClimbSound(s: Shape, minimum: int, i: nat, k: nat)
    requires s.Valid() && i < |s.nots| && k <= s.nots[i]
    ensures var (t, f) := Climb(s, minimum, i, k);
            Grouped(s, t, i, k, f) && RootAtLeast(s, t, minimum) && ExhaustedAt(s, f, minimum)
    decreases 2 * (|s.nots| - i), s.nots[i] - k, 1
  {
    PrefixedSound(s, i, k);
    var (left, following) := Prefixed(s, i, k);
    ClimbFromSound(s, minimum, left, i, k, following);
  }

  lemma {:induction false} ClimbFromSound(s: Shape, minimum: int, left: Tree, i: nat, k: nat, following: nat)
    requires s.Valid() && Grouped(s, left, i, k, following) && RootAtLeast(s, left, minimum)
    ensures var (t, f) := ClimbFrom(s, minimum, left, following);
            Grouped(s, t, i, k, f) && RootAtLeast(s, t, minimum) && ExhaustedAt(s, f, minimum)
    decreases 2 * (|s.nots| - following) + 1, 0, 0
  {
    if following - 1 < |s.fixities| && s.fixities[following - 1].priority >= minimum {
      var j := following - 1;
      ClimbSound(s, RightMinimum(s.fixities[j]), following, 0);
      var (right, next) := Climb(s, RightMinimum(s.fixities[j]), following, 0);
      StopsFits(s, left, s.fixities[j].priority);
      ClimbFromSound(s, minimum, Node(j, left, right), i, k, next);
    }
  }

  lemma {:induction false} StopsFits(s: Shape, t: Tree, priority: int)
    requires Stops(s, t, priority)
    ensures LeftOperandFits(s, t, priority)
  {
    if t.Node? {
      StopsFits(s, t.right, priority);
    }
  }

  // ----- Completeness: climbing over a well-grouped tree's yield rebuilds that tree -----

  lemma {:induction false} FitsStops(s: Shape, t: Tree, priority: int)
    requires WellGrouped(s, t) && LeftOperandFits(s, t, priority)
    ensures Stops(s, t, priority)
  {
    match t {
      case Leaf(_) =>
      case Neg(_, _, body) =>
        BoundedStops(s, body, NOT_PRIORITY, priority);
      case Node(j, _, right) =>
        if EndsUnderNot(right) {
          assert priority < NOT_PRIORITY;
        }
        BoundedStops(s, right, RightMinimum(s.fixities[j]), priority);
    }
  }

  lemma {:induction false} BoundedStops(s: Shape, t: Tree, minimum: int, priority: int)
    requires WellGrouped(s, t) && RootAtLeast(s, t, minimum) && priority < minimum
    requires EndsUnderNot(t) ==> priority < NOT_PRIORITY
    ensures Stops(s, t, priority)
  {
    match t {
      case Leaf(_) =>
      case Neg(_, _, body) => BoundedStops(s, body, NOT_PRIORITY, priority);
      case Node(j, _, right) => BoundedStops(s, right, RightMinimum(s.fixities[j]), priority);
    }
  }

  lemma {:induction false} ClimbRebuilds(s: Shape, t: Tree, minimum: int, i: nat, k: nat, f: nat)
    requires s.Valid() && Grouped(s, t, i, k, f) && RootAtLeast(s, t, minimum)
    ensures Climb(s, minimum, i, k) == ClimbFrom(s, minimum, t, f)
    decreases t
  {
    match t {
      case Leaf(_) =>
      case Neg(_, _, body) =>
        ClimbRebuilds(s, body, NOT_PRIORITY, i, k + 1, f);
        assert ClimbFrom(s, NOT_PRIORITY, body, f) == (body, f);
      case Node(j, left, right) =>
        FitsStops(s, left, s.fixities[j].priority);
        LeftRootAtLeast(s, left, s.fixities[j].priority, minimum);
        ClimbRebuilds(s, left, minimum, i, k, j + 1);
        ClimbRebuilds(s, right, RightMinimum(s.fixities[j]), j + 1, 0, f);
        assert ClimbFrom(s, RightMinimum(s.fixities[j]), right, f) == (right, f);
    }
  }

  lemma LeftRootAtLeast(s: Shape, left: Tree, priority: int, minimum: int)
    requires LeftOperandFits(s, left, priority) && priority >= minimum
    ensures RootAtLeast(s, left, minimum)
  {
  }

  // ----- The whole chain -----

  function Group(s: Shape): (r: (Tree, nat))
    requires s.Valid()
    ensures 0 < r.1 <= |s.nots|
  {
    Climb(s, 0, 0, 0)
  }

  predicate NonNegative(s: Shape) {
    forall j :: 0 <= j < |s.fixities| ==> s.fixities[j].priority >= 0
  }

  predicate HasOperator(t: Tree, j: nat) {
    match t
    case Leaf(_) => false
    case Neg(_, _, body) => HasOperator(body, j)
    case Node(j', left, right) => j == j' || HasOperator(left, j) || HasOperator(right, j)
  }

  lemma {:induction false} SpanOperators(s: Shape, t: Tree, i: nat, k: nat, f: nat, j: nat)
    requires s.Valid() && Spans(s, t, i, k, f)
    ensures HasOperator(t, j) <==> i <= j && j + 1 < f
  {
    match t {
      case Leaf(_) =>
      case Neg(_, _, body) => SpanOperators(s, body, i, k + 1, f, j);
      case Node(j', left, right) =>
        SpanOperators(s, left, i, k, j' + 1, j);
        SpanOperators(s, right, j' + 1, 0, f, j);
    }
  }

  lemma {:induction false} OperatorsAtLeast(s: Shape, t: Tree, minimum: int, j: nat)
    requires WellGrouped(s, t) && RootAtLeast(s, t, minimum) && minimum <= NOT_PRIORITY && HasOperator(t, j)
    ensures j < |s.fixities| && s.fixities[j].priority >= minimum
  {
    match t {
      case Neg(_, _, body) => OperatorsAtLeast(s, body, minimum, j);
      case Node(j', left, right) =>
        if HasOperator(left, j) {
          LeftRootAtLeast(s, left, s.fixities[j'].priority, minimum);
          OperatorsAtLeast(s, left, minimum, j);
        } else if HasOperator(right, j) {
          OperatorsAtLeast(s, right, minimum, j);
        }
    }
  }

  /** Grouping stops at the first operator of negative priority: everything before it is grouped,
      nothing from it on is. */
  lemma GroupStopsAtFirstNegative(s: Shape)
    requires s.Valid()
    ensures var f := Group(s).1;
            && (forall j :: 0 <= j < f - 1 ==> s.fixities[j].priority >= 0)
            && (f - 1 < |s.fixities| ==> s.fixities[f - 1].priority < 0)
  {
    var (t, f) := Group(s);
    ClimbSound(s, 0, 0, 0);
    forall j: nat | j < f - 1
      ensures s.fixities[j].priority >= 0
    {
      SpanOperators(s, t, 0, 0, f, j);
      OperatorsAtLeast(s, t, 0, j);
    }
  }

  /** The whole chain is consumed if and only if no operator has a negative priority. */
  lemma GroupConsumesChain(s: Shape)
    requires s.Valid()
    ensures Group(s).1 == |s.nots| <==> NonNegative(s)
  {
    GroupStopsAtFirstNegative(s);
  }

  /** The main theorem: a tree is the result of grouping if and only if it is well grouped and its
      in-order yield is the chain, token for token. */
  lemma GroupIsTheWellGroupedTree(s: Shape, t: Tree)
    requires s.Valid() && NonNegative(s)
    ensures Group(s).0 == t <==> WellGrouped(s, t) && Yield(t) == Tokens(s.nots, 0, 0, |s.nots|)
  {
    ClimbSound(s, 0, 0, 0);
    GroupConsumesChain(s);
    SpansIsYield(s, t, 0, 0, |s.nots|);
    if WellGrouped(s, t) && Yield(t) == Tokens(s.nots, 0, 0, |s.nots|) {
      if t.Node? {
        assert Spans(s, t, 0, 0, |s.nots|);
      }
      ClimbRebuilds(s, t, 0, 0, 0, |s.nots|);
    }
  }

  /** Without the sign condition, grouping is grouping of the prefix before the first negative operator. */
  lemma GroupIsTheWellGroupedPrefix(s: Shape, t: Tree)
    requires s.Valid()
    ensures var f := Group(s).1;
            Group(s).0 == t <==> WellGrouped(s, t) && Yield(t) == Tokens(s.nots, 0, 0, f)
  {
    var f := Group(s).1;
    ClimbSound(s, 0, 0, 0);
    GroupStopsAtFirstNegative(s);
    SpansIsYield(s, t, 0, 0, f);
    if WellGrouped(s, t) && Yield(t) == Tokens(s.nots, 0, 0, f) {
      if f - 1 < |s.fixities| {
        StopsLow(s, t, 0, 0, f, s.fixities[f - 1].priority);
      }
      ClimbRebuilds(s, t, 0, 0, 0, f);
    }
  }

  /** An operator weaker than everything in a tree is captured by nothing in it. */
  lemma {:induction false} StopsLow(s: Shape, t: Tree, i: nat, k: nat, f: nat, priority: int)
    requires s.Valid() && Spans(s, t, i, k, f) && priority < 0
    requires forall j :: i <= j < f - 1 ==> s.fixities[j].priority >= 0
    ensures Stops(s, t, priority)
  {
    match t {
      case Leaf(_) =>
      case Neg(_, _, body) => StopsLow(s, body, i, k + 1, f, priority);
      case Node(j, _, right) => StopsLow(s, right, j + 1, 0, f, priority);
    }
  }

  /** A concrete chain that is not consumed: the right operand of an operator declared below zero is dropped. */
  lemma NegativeOperatorDropsTheRest()
    ensures var s := Shape([0, 0], [Fixity(-1, LeftAssoc)]);
            s.Valid() && Group(s) == (Leaf(0), 1) && Group(s).1 < |s.nots|
  {
  }
}
