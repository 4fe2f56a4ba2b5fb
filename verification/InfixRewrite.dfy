/** The rewrite that replaces every raw chain of a program by its grouping. */
module InfixRewrite {
  import opened Options
  import opened InfixSyntax
  import opened InfixTrees
  import opened InfixComparisons
  import opened InfixGrouping

  /** One written or implied mark of an expression, in reading order. */
  datatype Lexeme = TagMark(tag: string) | NotMark(notId: nat) | OperatorMark(name: string, callee: Option<nat>, nodeId: nat) | ChainMark(chainId: nat)

  // ----- Reading an expression in order -----

  function Lexemes(e: Expr): seq<Lexeme>
    decreases e, 0
  {
    match e
    case BinaryOp(op, left, right, id) => Lexemes(left) + [OperatorMark(op, None, id)] + Lexemes(right)
    case OperatorCall(callee, calleeId, first, second, id) => Lexemes(first) + [OperatorMark(callee, Some(calleeId), id)] + Lexemes(second)
    case UnaryNot(operand, id) => [NotMark(id)] + Lexemes(operand)
    case RawChain(operands, operators, id) => [ChainMark(id)] + ChainLexemes(operands, operators, Written(operands))
    case Other(tag, children) => [TagMark(tag)] + LexemesOfAll(children)
  }

  function LexemesOfAll(es: seq<Expr>): seq<Lexeme> {
    if es == [] then [] else Lexemes(es[0]) + LexemesOfAll(es[1..])
  }

  function Nots(operands: seq<Operand>): (nots: seq<nat>)
    ensures |nots| == |operands|
  {
    seq(|operands|, i requires 0 <= i < |operands| => |operands[i].prefixNots|)
  }

  /** The tokens of a chain as written. */
  function Written(operands: seq<Operand>): seq<Token> {
    if operands == [] then [] else Tokens(Nots(operands), 0, 0, |operands|)
  }

  function ChainLexemes(operands: seq<Operand>, operators: seq<Operator>, tokens: seq<Token>): seq<Lexeme>
    decreases operands, |tokens|
  {
    if tokens == [] then []
    else TokenLexemes(operands, operators, tokens[0]) + ChainLexemes(operands, operators, tokens[1..])
  }

  /** The mark of a written operator: a builtin one applies as such, any other as a call of its own callee. */
  function OperatorApplied(operator: Operator): Lexeme {
    OperatorMark(operator.name, if operator.name in BUILTIN_FIXITIES then None else Some(operator.calleeId), operator.nodeId)
  }

  function TokenLexemes(operands: seq<Operand>, operators: seq<Operator>, token: Token): seq<Lexeme>
    decreases operands, 0
  {
    match token
    case NotToken(i, k) => if i < |operands| && k < |operands[i].prefixNots| then [NotMark(operands[i].prefixNots[k].nodeId)] else []
    case OperandToken(i) => if i < |operands| then Lexemes(operands[i].expr) else []
    case OperatorToken(j) => if j < |operators| then [OperatorApplied(operators[j])] else []
  }

  lemma {:induction false} ChainLexemesAppend(operands: seq<Operand>, operators: seq<Operator>, a: seq<Token>, b: seq<Token>)
    ensures ChainLexemes(operands, operators, a + b) == ChainLexemes(operands, operators, a) + ChainLexemes(operands, operators, b)
    decreases |a|
  {
    if a == [] {
      assert a + b == b;
    } else {
      assert (a + b)[1..] == a[1..] + b;
      ChainLexemesAppend(operands, operators, a[1..], b);
    }
  }

  lemma ChainLexemesOne(operands: seq<Operand>, operators: seq<Operator>, token: Token)
    ensures ChainLexemes(operands, operators, [token]) == TokenLexemes(operands, operators, token)
  {
    assert ChainLexemes(operands, operators, [token][1..]) == [];
  }

  /** The expression a tree stands for reads as the chain tokens the tree yields. */
  lemma {:induction false} LexemesOfBuild(c: Chain, t: Tree, i: nat, k: nat, f: nat)
    requires c.Valid() && Spans(c.Shape(), t, i, k, f)
    ensures Lexemes(Build(c, t)) == ChainLexemes(c.operands, c.operators, Yield(t))
  {
    hide ChainLexemes;
    match t {
      case Leaf(_) =>
        ChainLexemesOne(c.operands, c.operators, OperandToken(i));
      case Neg(_, _, body) =>
        LexemesOfBuild(c, body, i, k + 1, f);
        ChainLexemesAppend(c.operands, c.operators, [NotToken(i, k)], Yield(body));
        ChainLexemesOne(c.operands, c.operators, NotToken(i, k));
      case Node(j, left, right) =>
        LexemesOfBuild(c, left, i, k, j + 1);
        LexemesOfBuild(c, right, j + 1, 0, f);
        ChainLexemesAppend(c.operands, c.operators, Yield(left) + [OperatorToken(j)], Yield(right));
        ChainLexemesAppend(c.operands, c.operators, Yield(left), [OperatorToken(j)]);
        ChainLexemesOne(c.operands, c.operators, OperatorToken(j));
    }
  }

  /** What follows the first operands of a chain begins with an operator. */
  lemma TokensPrefix(nots: seq<nat>, f: nat)
    returns (rest: seq<Token>)
    requires 0 < f <= |nots|
    ensures Tokens(nots, 0, 0, |nots|) == Tokens(nots, 0, 0, f) + rest
    ensures f == |nots| ==> rest == []
    ensures f < |nots| ==> rest != [] && rest[0] == OperatorToken(f - 1)
  {
    if f < |nots| {
      var s := Shape(nots, seq(|nots| - 1, _ => Fixity(0, LeftAssoc)));
      TokensSplit(s, 0, 0, f - 1, |nots|);
      rest := [OperatorToken(f - 1)] + Tokens(nots, f, 0, |nots|);
      assert Tokens(nots, 0, 0, |nots|) == Tokens(nots, 0, 0, f) + rest;
    } else {
      rest := [];
    }
  }

  /** A grouping reads as a prefix of its chain; as the whole chain when no priority is negative. */
  lemma GroupingReadsAsChain(c: Chain, e: Expr) returns (t: Tree, rest: seq<Lexeme>)
    requires c.Valid() && IsGrouping(c, Ok(e))
    ensures e == Build(c, t) && t == Group(c.Shape()).0
    ensures Spans(c.Shape(), t, 0, 0, Group(c.Shape()).1) && WellGrouped(c.Shape(), t)
    ensures ChainLexemes(c.operands, c.operators, Written(c.operands)) == Lexemes(e) + rest
    ensures NonNegative(c.Shape()) ==> rest == []
    ensures !NonNegative(c.Shape()) ==> rest != [] && rest[0].OperatorMark?
  {
    var (tree, f) := Group(c.Shape());
    t := tree;
    ClimbSound(c.Shape(), 0, 0, 0);
    ReadClimbBuilds(c, 0, 0, 0, {});
    SpansIsYield(c.Shape(), t, 0, 0, f);
    LexemesOfBuild(c, t, 0, 0, f);
    assert c.Shape().nots == Nots(c.operands);
    var dropped := TokensPrefix(c.Shape().nots, f);
    rest := ChainLexemes(c.operands, c.operators, dropped);
    ChainLexemesAppend(c.operands, c.operators, Yield(t), dropped);
    GroupConsumesChain(c.Shape());
  }

  // ----- The rewrite -----

  /** What scope hands to the rewrite: every chain it reaches that has a grouping has the one its own
      operands, operators and fixities give. */
  ghost predicate Resolved(grouped: map<nat, Expr>, fixities: map<nat, seq<Fixity>>, e: Expr) {
    match e
    case BinaryOp(_, left, right, _) => Resolved(grouped, fixities, left) && Resolved(grouped, fixities, right)
    case OperatorCall(_, _, first, second, _) => Resolved(grouped, fixities, first) && Resolved(grouped, fixities, second)
    case UnaryNot(operand, _) => Resolved(grouped, fixities, operand)
    case Other(_, children) => forall i :: 0 <= i < |children| ==> Resolved(grouped, fixities, children[i])
    case RawChain(operands, operators, id) =>
      id in grouped ==>
        && HasGrouping(grouped, fixities, operands, operators, id)
        && forall i :: 0 <= i < |operands| ==> Resolved(grouped, fixities, operands[i].expr)
  }

  ghost predicate HasGrouping(grouped: map<nat, Expr>, fixities: map<nat, seq<Fixity>>,
                              operands: seq<Operand>, operators: seq<Operator>, id: nat) {
    && id in grouped && id in fixities
    && IsChain(operands, operators, fixities[id])
    && IsGrouping(Chain(operands, operators, fixities[id]), Ok(grouped[id]))
  }

  lemma {:induction false} BuildResolved(grouped: map<nat, Expr>, fixities: map<nat, seq<Fixity>>, c: Chain, t: Tree, i: nat,
                                         k: nat, f: nat)
    requires c.Valid() && Spans(c.Shape(), t, i, k, f)
    requires forall i :: 0 <= i < |c.operands| ==> Resolved(grouped, fixities, c.operands[i].expr)
    ensures Resolved(grouped, fixities, Build(c, t))
  {
    hide HasGrouping, IsComparison;
    match t {
      case Leaf(_) =>
      case Neg(_, _, body) => BuildResolved(grouped, fixities, c, body, i, k + 1, f);
      case Node(j, left, right) =>
        BuildResolved(grouped, fixities, c, left, i, k, j + 1);
        BuildResolved(grouped, fixities, c, right, j + 1, 0, f);
    }
  }

  /** Following a grouping makes progress: it reads shorter, and is itself resolved. */
  lemma GroupingProgress(grouped: map<nat, Expr>, fixities: map<nat, seq<Fixity>>, e: Expr)
    requires e.RawChain? && e.chainId in grouped && Resolved(grouped, fixities, e)
    ensures Resolved(grouped, fixities, grouped[e.chainId])
    ensures |Lexemes(grouped[e.chainId])| < |Lexemes(e)|
  {
    var c := Chain(e.operands, e.operators, fixities[e.chainId]);
    var t, rest := GroupingReadsAsChain(c, grouped[e.chainId]);
    BuildResolved(grouped, fixities, c, t, 0, 0, Group(c.Shape()).1);
  }

  /** Replace every chain by its grouping; a chain without one stays as written, operands included. */
  ghost function Rewrite(grouped: map<nat, Expr>, fixities: map<nat, seq<Fixity>>, e: Expr): Expr
    requires Resolved(grouped, fixities, e)
    decreases |Lexemes(e)|, 0
  {
    match e
    case BinaryOp(op, left, right, id) => BinaryOp(op, Rewrite(grouped, fixities, left), Rewrite(grouped, fixities, right), id)
    case OperatorCall(callee, calleeId, first, second, id) =>
      OperatorCall(callee, calleeId, Rewrite(grouped, fixities, first), Rewrite(grouped, fixities, second), id)
    case UnaryNot(operand, id) => UnaryNot(Rewrite(grouped, fixities, operand), id)
    case Other(tag, children) => Other(tag, RewriteAll(grouped, fixities, children))
    case RawChain(_, _, id) =>
      if id in grouped then
        GroupingProgress(grouped, fixities, e);
        Rewrite(grouped, fixities, grouped[id])
      else e
  }

  ghost function RewriteAll(grouped: map<nat, Expr>, fixities: map<nat, seq<Fixity>>, es: seq<Expr>): (rs: seq<Expr>)
    requires forall i :: 0 <= i < |es| ==> Resolved(grouped, fixities, es[i])
    ensures |rs| == |es|
    ensures forall i :: 0 <= i < |es| ==> |Lexemes(es[i])| <= |LexemesOfAll(es)| && rs[i] == Rewrite(grouped, fixities, es[i])
    decreases |LexemesOfAll(es)|, |es| + 1
  {
    if es == [] then [] else [Rewrite(grouped, fixities, es[0])] + RewriteAll(grouped, fixities, es[1..])
  }

  // ----- What the rewrite preserves -----

  /** The reading of an expression without the marks that only say "this is still a raw chain". */
  function Visible(marks: seq<Lexeme>): seq<Lexeme> {
    if marks == [] then []
    else if marks[0].ChainMark? then Visible(marks[1..])
    else [marks[0]] + Visible(marks[1..])
  }

  lemma {:induction false} VisibleAppend(a: seq<Lexeme>, b: seq<Lexeme>)
    ensures Visible(a + b) == Visible(a) + Visible(b)
  {
    if a == [] {
      assert a + b == b;
    } else {
      assert (a + b)[1..] == a[1..] + b;
      VisibleAppend(a[1..], b);
    }
  }

  predicate AllNonNegative(fixities: seq<Fixity>) {
    forall j :: 0 <= j < |fixities| ==> fixities[j].priority >= 0
  }

  /** No chain that the rewrite comes to has an operator of negative priority. */
  ghost predicate NonNegativeWithin(grouped: map<nat, Expr>, fixities: map<nat, seq<Fixity>>, e: Expr)
    requires Resolved(grouped, fixities, e)
    decreases |Lexemes(e)|, 0
  {
    match e
    case BinaryOp(_, left, right, _) => NonNegativeWithin(grouped, fixities, left) && NonNegativeWithin(grouped, fixities, right)
    case OperatorCall(_, _, first, second, _) => NonNegativeWithin(grouped, fixities, first) && NonNegativeWithin(grouped, fixities, second)
    case UnaryNot(operand, _) => NonNegativeWithin(grouped, fixities, operand)
    case Other(_, children) => AllNonNegativeWithin(grouped, fixities, children)
    case RawChain(_, _, id) =>
      id in grouped ==>
        (GroupingProgress(grouped, fixities, e);
         AllNonNegative(fixities[id]) && NonNegativeWithin(grouped, fixities, grouped[id]))
  }

  ghost predicate AllNonNegativeWithin(grouped: map<nat, Expr>, fixities: map<nat, seq<Fixity>>, es: seq<Expr>)
    requires forall i :: 0 <= i < |es| ==> Resolved(grouped, fixities, es[i])
    decreases |LexemesOfAll(es)|, |es| + 1
  {
    es == [] || (NonNegativeWithin(grouped, fixities, es[0]) && AllNonNegativeWithin(grouped, fixities, es[1..]))
  }

  /** One reading keeps another, or has lost part of it. */
  ghost predicate KeptIff(sound: bool, rewritten: seq<Lexeme>, written: seq<Lexeme>) {
    if sound then Visible(rewritten) == Visible(written) else |Visible(rewritten)| < |Visible(written)|
  }

  lemma VisibleFirst(marks: seq<Lexeme>)
    requires marks != [] && !marks[0].ChainMark?
    ensures Visible(marks) != []
  {
  }

  /** A grouping keeps the reading of its chain exactly if no priority is negative. */
  lemma GroupedReading(grouped: map<nat, Expr>, fixities: map<nat, seq<Fixity>>, e: Expr)
    requires e.RawChain? && e.chainId in grouped && Resolved(grouped, fixities, e)
    ensures KeptIff(AllNonNegative(fixities[e.chainId]), Lexemes(grouped[e.chainId]), Lexemes(e))
  {
    hide IsGrouping, Visible, ChainLexemes, Written;
    var c, grouping := Chain(e.operands, e.operators, fixities[e.chainId]), Lexemes(grouped[e.chainId]);
    var _, rest := GroupingReadsAsChain(c, grouped[e.chainId]);
    assert NonNegative(c.Shape()) <==> AllNonNegative(fixities[e.chainId]);
    VisibleOfChain(e.chainId, grouping + rest);
    VisibleAppend(grouping, rest);
    if rest == [] {
      assert grouping + rest == grouping;
    } else {
      VisibleFirst(rest);
    }
  }

  lemma VisibleOfChain(id: nat, b: seq<Lexeme>)
    ensures Visible([ChainMark(id)] + b) == Visible(b)
  {
    assert ([ChainMark(id)] + b)[1..] == b;
  }

  /** Two stretches around a mark keep their reading exactly if both do. */
  lemma AroundReads(x: bool, y: bool, a: seq<Lexeme>, a': seq<Lexeme>, mark: Lexeme, b: seq<Lexeme>, b': seq<Lexeme>)
    requires KeptIff(x, a', a) && KeptIff(y, b', b) && !mark.ChainMark?
    ensures KeptIff(x && y, a' + [mark] + b', a + [mark] + b)
  {
    VisibleAround(a, mark, b);
    VisibleAround(a', mark, b');
    hide Visible;
  }

  lemma AfterReads(x: bool, mark: Lexeme, b: seq<Lexeme>, b': seq<Lexeme>)
    requires KeptIff(x, b', b) && !mark.ChainMark?
    ensures KeptIff(x, [mark] + b', [mark] + b)
  {
    VisibleAfter(mark, b);
    VisibleAfter(mark, b');
    hide Visible;
  }

  lemma AppendReads(x: bool, y: bool, a: seq<Lexeme>, a': seq<Lexeme>, b: seq<Lexeme>, b': seq<Lexeme>)
    requires KeptIff(x, a', a) && KeptIff(y, b', b)
    ensures KeptIff(x && y, a' + b', a + b)
  {
    VisibleAppend(a, b);
    VisibleAppend(a', b');
    hide Visible;
  }

  lemma {:induction false} RewriteReads(grouped: map<nat, Expr>, fixities: map<nat, seq<Fixity>>, e: Expr)
    requires Resolved(grouped, fixities, e)
    ensures KeptIff(NonNegativeWithin(grouped, fixities, e), Lexemes(Rewrite(grouped, fixities, e)), Lexemes(e))
    decreases |Lexemes(e)|, 0
  {
    hide Visible, HasGrouping;
    match e {
      case BinaryOp(op, left, right, id) =>
        RewriteReads(grouped, fixities, left);
        RewriteReads(grouped, fixities, right);
        AroundReads(NonNegativeWithin(grouped, fixities, left), NonNegativeWithin(grouped, fixities, right), Lexemes(left), Lexemes(Rewrite(grouped, fixities, left)),
                    OperatorMark(op, None, id), Lexemes(right), Lexemes(Rewrite(grouped, fixities, right)));
      case OperatorCall(op, callee, left, right, id) =>
        RewriteReads(grouped, fixities, left);
        RewriteReads(grouped, fixities, right);
        AroundReads(NonNegativeWithin(grouped, fixities, left), NonNegativeWithin(grouped, fixities, right), Lexemes(left), Lexemes(Rewrite(grouped, fixities, left)),
                    OperatorMark(op, Some(callee), id), Lexemes(right), Lexemes(Rewrite(grouped, fixities, right)));
      case UnaryNot(operand, id) =>
        RewriteReads(grouped, fixities, operand);
        AfterReads(NonNegativeWithin(grouped, fixities, operand), NotMark(id), Lexemes(operand), Lexemes(Rewrite(grouped, fixities, operand)));
      case Other(tag, children) =>
        RewriteAllReads(grouped, fixities, children);
        AfterReads(AllNonNegativeWithin(grouped, fixities, children), TagMark(tag), LexemesOfAll(children),
                   LexemesOfAll(RewriteAll(grouped, fixities, children)));
      case RawChain(_, _, id) =>
        if id in grouped {
          GroupingProgress(grouped, fixities, e);
          GroupedReading(grouped, fixities, e);
          RewriteReads(grouped, fixities, grouped[id]);
        }
    }
  }

  lemma {:induction false} RewriteAllReads(grouped: map<nat, Expr>, fixities: map<nat, seq<Fixity>>, es: seq<Expr>)
    requires forall i :: 0 <= i < |es| ==> Resolved(grouped, fixities, es[i])
    ensures KeptIff(AllNonNegativeWithin(grouped, fixities, es), LexemesOfAll(RewriteAll(grouped, fixities, es)), LexemesOfAll(es))
    decreases |LexemesOfAll(es)|, |es| + 1
  {
    if es != [] {
      var rewritten := RewriteAll(grouped, fixities, es);
      RewriteReads(grouped, fixities, es[0]);
      RewriteAllReads(grouped, fixities, es[1..]);
      assert rewritten[1..] == RewriteAll(grouped, fixities, es[1..]);
      AppendReads(NonNegativeWithin(grouped, fixities, es[0]), AllNonNegativeWithin(grouped, fixities, es[1..]), Lexemes(es[0]), Lexemes(rewritten[0]),
                  LexemesOfAll(es[1..]), LexemesOfAll(rewritten[1..]));
    }
  }

  /** Every operand, `not` and operator of the program is kept, in the order written, exactly if no chain that the
      rewrite comes to has an operator of negative priority. */
  lemma RewriteKeepsReading(grouped: map<nat, Expr>, fixities: map<nat, seq<Fixity>>, e: Expr)
    requires Resolved(grouped, fixities, e)
    ensures Visible(Lexemes(Rewrite(grouped, fixities, e))) == Visible(Lexemes(e)) <==> NonNegativeWithin(grouped, fixities, e)
  {
    hide Visible, Lexemes, Rewrite, Resolved, NonNegativeWithin;
    RewriteReads(grouped, fixities, e);
  }

  lemma VisibleAfter(mark: Lexeme, b: seq<Lexeme>)
    requires !mark.ChainMark?
    ensures Visible([mark] + b) == [mark] + Visible(b)
  {
    assert ([mark] + b)[1..] == b;
  }

  lemma VisibleAround(a: seq<Lexeme>, mark: Lexeme, b: seq<Lexeme>)
    requires !mark.ChainMark?
    ensures Visible(a + [mark] + b) == Visible(a) + [mark] + Visible(b)
  {
    VisibleAppend(a + [mark], b);
    VisibleAppend(a, [mark]);
    assert Visible([mark]) == [mark] + Visible([]);
  }

  // ----- What the rewrite removes -----

  /** No chain with a grouping is left, except inside a chain that has none. */
  predicate Settled(grouped: map<nat, Expr>, e: Expr) {
    match e
    case BinaryOp(_, left, right, _) => Settled(grouped, left) && Settled(grouped, right)
    case OperatorCall(_, _, first, second, _) => Settled(grouped, first) && Settled(grouped, second)
    case UnaryNot(operand, _) => Settled(grouped, operand)
    case Other(_, children) => forall i :: 0 <= i < |children| ==> Settled(grouped, children[i])
    case RawChain(_, _, id) => id !in grouped
  }

  lemma {:induction false} RewriteSettles(grouped: map<nat, Expr>, fixities: map<nat, seq<Fixity>>, e: Expr)
    requires Resolved(grouped, fixities, e)
    ensures Settled(grouped, Rewrite(grouped, fixities, e))
    decreases |Lexemes(e)|
  {
    match e {
      case BinaryOp(_, left, right, _) =>
        RewriteSettles(grouped, fixities, left);
        RewriteSettles(grouped, fixities, right);
      case OperatorCall(_, _, first, second, _) =>
        RewriteSettles(grouped, fixities, first);
        RewriteSettles(grouped, fixities, second);
      case UnaryNot(operand, _) =>
        RewriteSettles(grouped, fixities, operand);
      case Other(tag, children) =>
        var rewritten := RewriteAll(grouped, fixities, children);
        forall i | 0 <= i < |children|
          ensures Settled(grouped, rewritten[i])
        {
          assert |Lexemes(children[i])| < |Lexemes(e)|;
          RewriteSettles(grouped, fixities, children[i]);
        }
      case RawChain(_, _, id) =>
        if id in grouped {
          GroupingProgress(grouped, fixities, e);
          RewriteSettles(grouped, fixities, grouped[id]);
        }
    }
  }

  /** Settled expressions are exactly the fixed points of the rewrite. */
  lemma {:induction false} SettledIffUnchanged(grouped: map<nat, Expr>, fixities: map<nat, seq<Fixity>>, e: Expr)
    ensures Settled(grouped, e) <==> Resolved(grouped, fixities, e) && Rewrite(grouped, fixities, e) == e
  {
    if Settled(grouped, e) {
      SettledResolved(grouped, fixities, e);
      SettledUnchanged(grouped, fixities, e);
    } else if Resolved(grouped, fixities, e) {
      RewriteSettles(grouped, fixities, e);
    }
  }

  lemma {:induction false} SettledResolved(grouped: map<nat, Expr>, fixities: map<nat, seq<Fixity>>, e: Expr)
    requires Settled(grouped, e)
    ensures Resolved(grouped, fixities, e)
  {
    match e {
      case BinaryOp(_, left, right, _) =>
        SettledResolved(grouped, fixities, left);
        SettledResolved(grouped, fixities, right);
      case OperatorCall(_, _, first, second, _) =>
        SettledResolved(grouped, fixities, first);
        SettledResolved(grouped, fixities, second);
      case UnaryNot(operand, _) =>
        SettledResolved(grouped, fixities, operand);
      case Other(_, children) =>
        forall i | 0 <= i < |children|
          ensures Resolved(grouped, fixities, children[i])
        {
          SettledResolved(grouped, fixities, children[i]);
        }
      case RawChain(_, _, _) =>
    }
  }

  lemma {:induction false} SettledUnchanged(grouped: map<nat, Expr>, fixities: map<nat, seq<Fixity>>, e: Expr)
    requires Settled(grouped, e) && Resolved(grouped, fixities, e)
    ensures Rewrite(grouped, fixities, e) == e
  {
    match e {
      case BinaryOp(_, left, right, _) =>
        SettledUnchanged(grouped, fixities, left);
        SettledUnchanged(grouped, fixities, right);
      case OperatorCall(_, _, first, second, _) =>
        SettledUnchanged(grouped, fixities, first);
        SettledUnchanged(grouped, fixities, second);
      case UnaryNot(operand, _) =>
        SettledUnchanged(grouped, fixities, operand);
      case Other(_, children) =>
        var rewritten := RewriteAll(grouped, fixities, children);
        forall i | 0 <= i < |children|
          ensures rewritten[i] == children[i]
        {
          SettledUnchanged(grouped, fixities, children[i]);
        }
        assert rewritten == children;
      case RawChain(_, _, _) =>
    }
  }

  lemma RewriteIsIdempotent(grouped: map<nat, Expr>, fixities: map<nat, seq<Fixity>>, e: Expr)
    requires Resolved(grouped, fixities, e)
    ensures var once := Rewrite(grouped, fixities, e);
            Resolved(grouped, fixities, once) && Rewrite(grouped, fixities, once) == once
  {
    RewriteSettles(grouped, fixities, e);
    SettledIffUnchanged(grouped, fixities, Rewrite(grouped, fixities, e));
  }
}
