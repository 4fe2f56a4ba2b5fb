/** How the builtin operators and `not` bind. */
module InfixBuiltins {
  import opened InfixSyntax
  import opened InfixTrees

  /** What binds weakest first; `not` stands between the connectives and the comparisons. */
  const LEVELS: seq<set<string>> := [
    {"or"}, {"and"}, {"not"}, {"in", "==", "!=", "<", "<=", ">", ">="}, {"+", "-"}, {"*", "/"}
  ]

  function PriorityOf(name: string): int
    requires name == "not" || name in BUILTIN_FIXITIES
  {
    if name == "not" then NOT_PRIORITY else BUILTIN_FIXITIES[name].priority
  }

  /** Every builtin operator has a level and groups to the left; the comparisons are those of one level. */
  lemma BuiltinsAre(name: string)
    ensures name in BUILTIN_FIXITIES <==> name != "not" && exists i :: 0 <= i < |LEVELS| && name in LEVELS[i]
    ensures name in BUILTIN_FIXITIES ==> BUILTIN_FIXITIES[name].assoc == LeftAssoc && BUILTIN_FIXITIES[name].priority >= 0
    ensures name in NON_ASSOCIATIVE <==> name in LEVELS[3]
  {
    assert (exists i :: 0 <= i < |LEVELS| && name in LEVELS[i]) <==>
           name in LEVELS[0] || name in LEVELS[1] || name in LEVELS[2] || name in LEVELS[3] || name in LEVELS[4] || name in LEVELS[5];
  }

  /** A builtin operator, or `not`, has a higher priority than another exactly if its level is the higher one. */
  lemma LevelsOrderPriorities(a: string, b: string, i: nat, j: nat)
    requires i < |LEVELS| && j < |LEVELS| && a in LEVELS[i] && b in LEVELS[j]
    ensures a == "not" || a in BUILTIN_FIXITIES
    ensures b == "not" || b in BUILTIN_FIXITIES
    ensures PriorityOf(a) < PriorityOf(b) <==> i < j
  {
    BuiltinsAre(a);
    BuiltinsAre(b);
    PriorityOfLevel(a, i);
    PriorityOfLevel(b, j);
  }

  const PRIORITIES: seq<int> := [10, 20, 25, 30, 40, 50]

  lemma PriorityOfLevel(name: string, i: nat)
    requires i < |LEVELS| && name in LEVELS[i] && (name == "not" || name in BUILTIN_FIXITIES)
    ensures PriorityOf(name) == PRIORITIES[i]
  {
  }

  /** Of two builtin operators in a row, the right one takes the operand between them exactly if its level is higher. */
  lemma TwoBuiltins(a: string, b: string, i: nat, j: nat)
    requires i < |LEVELS| && j < |LEVELS| && a in LEVELS[i] && b in LEVELS[j] && a != "not" && b != "not"
    ensures a in BUILTIN_FIXITIES && b in BUILTIN_FIXITIES
    ensures var s := Shape([0, 0, 0], [BUILTIN_FIXITIES[a], BUILTIN_FIXITIES[b]]);
            Group(s) == (if i < j then Node(0, Leaf(0), Node(1, Leaf(1), Leaf(2))) else Node(1, Node(0, Leaf(0), Leaf(1)), Leaf(2)), 3)
  {
    hide LEVELS, BUILTIN_FIXITIES;
    LevelsOrderPriorities(a, b, i, j);
    BuiltinsAre(a);
    BuiltinsAre(b);
    TwoOperators(BUILTIN_FIXITIES[a], BUILTIN_FIXITIES[b]);
  }

  lemma TwoOperators(a: Fixity, b: Fixity)
    requires a.assoc == b.assoc == LeftAssoc && a.priority >= 0 && b.priority >= 0
    ensures var s := Shape([0, 0, 0], [a, b]);
            Group(s) == (if a.priority < b.priority then Node(0, Leaf(0), Node(1, Leaf(1), Leaf(2)))
                         else Node(1, Node(0, Leaf(0), Leaf(1)), Leaf(2)), 3)
  {
    var s := Shape([0, 0, 0], [a, b]);
    if a.priority < b.priority {
      var right := Node(1, Leaf(1), Leaf(2));
      assert Climb(s, b.priority + 1, 2, 0) == (Leaf(2), 3);
      assert ClimbFrom(s, a.priority + 1, right, 3) == (right, 3);
      assert Climb(s, a.priority + 1, 1, 0) == (right, 3);
      assert ClimbFrom(s, 0, Node(0, Leaf(0), right), 3) == (Node(0, Leaf(0), right), 3);
      assert ClimbFrom(s, 0, Leaf(0), 1) == (Node(0, Leaf(0), right), 3);
      assert Prefixed(s, 0, 0) == (Leaf(0), 1);
      assert Climb(s, 0, 0, 0) == (Node(0, Leaf(0), right), 3);
    } else {
      var left := Node(0, Leaf(0), Leaf(1));
      assert Climb(s, a.priority + 1, 1, 0) == (Leaf(1), 2);
      assert Climb(s, b.priority + 1, 2, 0) == (Leaf(2), 3);
      assert ClimbFrom(s, 0, Node(1, left, Leaf(2)), 3) == (Node(1, left, Leaf(2)), 3);
      assert ClimbFrom(s, 0, left, 2) == (Node(1, left, Leaf(2)), 3);
      assert ClimbFrom(s, 0, Leaf(0), 1) == (Node(1, left, Leaf(2)), 3);
      assert Prefixed(s, 0, 0) == (Leaf(0), 1);
      assert Climb(s, 0, 0, 0) == (Node(1, left, Leaf(2)), 3);
    }
  }

  /** `not` takes in the operator after its operand exactly if the operator's level is higher than its own: `not a < b`
      is `not (a < b)`, `not a and b` is `(not a) and b`. */
  lemma NotBeforeBuiltin(name: string, i: nat)
    requires i < |LEVELS| && name in LEVELS[i] && name != "not"
    ensures name in BUILTIN_FIXITIES
    ensures Group(Shape([1, 0], [BUILTIN_FIXITIES[name]]))
         == (if i > 2 then Neg(0, 0, Node(0, Leaf(0), Leaf(1))) else Node(0, Neg(0, 0, Leaf(0)), Leaf(1)), 2)
  {
    hide BUILTIN_FIXITIES;
    LevelsOrderPriorities("not", name, 2, i);
    BuiltinsAre(name);
    if i < 2 {
      LevelsOrderPriorities(name, "not", i, 2);
    }
    NotBefore(BUILTIN_FIXITIES[name]);
  }

  lemma NotBefore(fixity: Fixity)
    requires fixity.priority >= 0
    requires fixity.priority != NOT_PRIORITY
    ensures Group(Shape([1, 0], [fixity]))
         == (if NOT_PRIORITY < fixity.priority then Neg(0, 0, Node(0, Leaf(0), Leaf(1))) else Node(0, Neg(0, 0, Leaf(0)), Leaf(1)), 2)
  {
    var s := Shape([1, 0], [fixity]);
    assert Climb(s, RightMinimum(fixity), 1, 0) == (Leaf(1), 2);
    if NOT_PRIORITY < fixity.priority {
      var body := Node(0, Leaf(0), Leaf(1));
      assert ClimbFrom(s, NOT_PRIORITY, body, 2) == (body, 2);
      assert Climb(s, NOT_PRIORITY, 0, 1) == (body, 2);
      assert ClimbFrom(s, 0, Neg(0, 0, body), 2) == (Neg(0, 0, body), 2);
      assert Prefixed(s, 0, 0) == (Neg(0, 0, body), 2);
      assert Climb(s, 0, 0, 0) == (Neg(0, 0, body), 2);
    } else {
      var left := Neg(0, 0, Leaf(0));
      assert Climb(s, NOT_PRIORITY, 0, 1) == (Leaf(0), 1);
      assert ClimbFrom(s, 0, Node(0, left, Leaf(1)), 2) == (Node(0, left, Leaf(1)), 2);
      assert ClimbFrom(s, 0, left, 1) == (Node(0, left, Leaf(1)), 2);
      assert Prefixed(s, 0, 0) == (left, 1);
      assert Climb(s, 0, 0, 0) == (Node(0, left, Leaf(1)), 2);
    }
  }
}
