/** Rewriting commutes with grouping: a chain's operands can be rewritten before or after it is grouped. */
module InfixCommute {
  import opened Options
  import opened InfixSyntax
  import opened InfixTrees
  import opened InfixComparisons
  import opened InfixGrouping
  import opened InfixRewrite

  // ----- Node ids -----

  function OperatorIds(marks: seq<Lexeme>): multiset<nat> {
    if marks == [] then multiset{}
    else (if marks[0].OperatorMark? then multiset{marks[0].nodeId} else multiset{}) + OperatorIds(marks[1..])
  }

  /** The parser allots one id per node, so no two operators of a program share one. */
  predicate UniqueIds(e: Expr) {
    forall id :: id in OperatorIds(Lexemes(e)) ==> OperatorIds(Lexemes(e))[id] == 1
  }

  lemma {:induction false} OperatorIdsAppend(a: seq<Lexeme>, b: seq<Lexeme>)
    ensures OperatorIds(a + b) == OperatorIds(a) + OperatorIds(b)
  {
    if a == [] {
      assert a + b == b;
    } else {
      assert (a + b)[1..] == a[1..] + b;
      OperatorIdsAppend(a[1..], b);
    }
  }

  lemma OperatorIdsAround(a: seq<Lexeme>, mark: Lexeme, b: seq<Lexeme>)
    ensures OperatorIds(a + [mark] + b)
         == OperatorIds(a) + (if mark.OperatorMark? then multiset{mark.nodeId} else multiset{}) + OperatorIds(b)
  {
    OperatorIdsAppend(a + [mark], b);
    OperatorIdsAppend(a, [mark]);
    assert OperatorIds([mark][1..]) == multiset{};
  }

  lemma OperatorIdsAfter(mark: Lexeme, b: seq<Lexeme>)
    requires !mark.OperatorMark?
    ensures OperatorIds([mark] + b) == OperatorIds(b)
  {
    assert ([mark] + b)[1..] == b;
  }

  lemma GroupedKeepsIds(grouped: map<nat, Expr>, fixities: map<nat, seq<Fixity>>, e: Expr)
    requires e.RawChain? && e.chainId in grouped && Resolved(grouped, fixities, e)
    ensures OperatorIds(Lexemes(grouped[e.chainId])) <= OperatorIds(Lexemes(e))
  {
    hide OperatorIds, ChainLexemes, Written, IsGrouping;
    var c, grouping := Chain(e.operands, e.operators, fixities[e.chainId]), Lexemes(grouped[e.chainId]);
    var _, rest := GroupingReadsAsChain(c, grouped[e.chainId]);
    OperatorIdsAfter(ChainMark(e.chainId), grouping + rest);
    OperatorIdsAppend(grouping, rest);
  }

  /** The rewrite invents no id and repeats none. */
  lemma {:induction false} RewriteKeepsIds(grouped: map<nat, Expr>, fixities: map<nat, seq<Fixity>>, e: Expr)
    requires Resolved(grouped, fixities, e)
    ensures OperatorIds(Lexemes(Rewrite(grouped, fixities, e))) <= OperatorIds(Lexemes(e))
    decreases |Lexemes(e)|, 1
  {
    hide OperatorIds, HasGrouping;
    match e {
      case BinaryOp(op, left, right, id) =>
        RewriteKeepsIdsAround(grouped, fixities, left, OperatorMark(op, None, id), right);
      case OperatorCall(op, callee, left, right, id) =>
        RewriteKeepsIdsAround(grouped, fixities, left, OperatorMark(op, Some(callee), id), right);
      case UnaryNot(operand, id) =>
        RewriteKeepsIds(grouped, fixities, operand);
        OperatorIdsAfter(NotMark(id), Lexemes(operand));
        OperatorIdsAfter(NotMark(id), Lexemes(Rewrite(grouped, fixities, operand)));
      case Other(tag, children) =>
        RewriteAllKeepsIds(grouped, fixities, children);
        OperatorIdsAfter(TagMark(tag), LexemesOfAll(children));
        OperatorIdsAfter(TagMark(tag), LexemesOfAll(RewriteAll(grouped, fixities, children)));
      case RawChain(_, _, id) =>
        if id in grouped {
          GroupingProgress(grouped, fixities, e);
          GroupedKeepsIds(grouped, fixities, e);
          RewriteKeepsIds(grouped, fixities, grouped[id]);
        }
    }
  }

  lemma {:induction false} RewriteKeepsIdsAround(grouped: map<nat, Expr>, fixities: map<nat, seq<Fixity>>, left: Expr,
                                                 mark: Lexeme, right: Expr)
    requires Resolved(grouped, fixities, left) && Resolved(grouped, fixities, right)
    ensures OperatorIds(Lexemes(Rewrite(grouped, fixities, left)) + [mark] + Lexemes(Rewrite(grouped, fixities, right)))
         <= OperatorIds(Lexemes(left) + [mark] + Lexemes(right))
    decreases |Lexemes(left) + [mark] + Lexemes(right)|, 0
  {
    RewriteKeepsIds(grouped, fixities, left);
    RewriteKeepsIds(grouped, fixities, right);
    OperatorIdsAround(Lexemes(left), mark, Lexemes(right));
    OperatorIdsAround(Lexemes(Rewrite(grouped, fixities, left)), mark, Lexemes(Rewrite(grouped, fixities, right)));
  }

  lemma {:induction false} RewriteAllKeepsIds(grouped: map<nat, Expr>, fixities: map<nat, seq<Fixity>>, es: seq<Expr>)
    requires forall i :: 0 <= i < |es| ==> Resolved(grouped, fixities, es[i])
    ensures OperatorIds(LexemesOfAll(RewriteAll(grouped, fixities, es))) <= OperatorIds(LexemesOfAll(es))
    decreases |LexemesOfAll(es)|, |es| + 1
  {
    if es != [] {
      var rewritten := RewriteAll(grouped, fixities, es);
      RewriteKeepsIds(grouped, fixities, es[0]);
      RewriteAllKeepsIds(grouped, fixities, es[1..]);
      assert rewritten[1..] == RewriteAll(grouped, fixities, es[1..]);
      OperatorIdsAppend(Lexemes(es[0]), LexemesOfAll(es[1..]));
      OperatorIdsAppend(Lexemes(rewritten[0]), LexemesOfAll(rewritten[1..]));
    }
  }

  // ----- Ids within one chain -----

  lemma {:induction false} OperandsOfTokens(nots: seq<nat>, i: nat, k: nat, f: nat, j: nat)
    requires i < f <= |nots| && k <= nots[i] && i <= j < f
    ensures OperandToken(j) in Tokens(nots, i, k, f)
    decreases f - i, nots[i] - k
  {
    if k < nots[i] {
      OperandsOfTokens(nots, i, k + 1, f, j);
    } else if i < j {
      OperandsOfTokens(nots, i + 1, 0, f, j);
    }
  }

  lemma TwoTokensIds(operands: seq<Operand>, operators: seq<Operator>, tokens: seq<Token>, p: nat, q: nat)
    requires p < q < |tokens|
    ensures OperatorIds(TokenLexemes(operands, operators, tokens[p])) + OperatorIds(TokenLexemes(operands, operators, tokens[q]))
         <= OperatorIds(ChainLexemes(operands, operators, tokens))
  {
    hide TokenLexemes, ChainLexemes, OperatorIds;
    var a, b, d := tokens[..p], tokens[p + 1..q], tokens[q + 1..];
    assert tokens == a + ([tokens[p]] + (b + ([tokens[q]] + d)));
    ChainLexemesAppend(operands, operators, a, [tokens[p]] + (b + ([tokens[q]] + d)));
    ChainLexemesAppend(operands, operators, [tokens[p]], b + ([tokens[q]] + d));
    ChainLexemesAppend(operands, operators, b, [tokens[q]] + d);
    ChainLexemesAppend(operands, operators, [tokens[q]], d);
    ChainLexemesOne(operands, operators, tokens[p]);
    ChainLexemesOne(operands, operators, tokens[q]);
    var la, lb, ld := ChainLexemes(operands, operators, a), ChainLexemes(operands, operators, b), ChainLexemes(operands, operators, d);
    var lp, lq := TokenLexemes(operands, operators, tokens[p]), TokenLexemes(operands, operators, tokens[q]);
    OperatorIdsAppend(la, lp + (lb + (lq + ld)));
    OperatorIdsAppend(lp, lb + (lq + ld));
    OperatorIdsAppend(lb, lq + ld);
    OperatorIdsAppend(lq, ld);
  }

  /** Two different tokens of a chain contribute their ids separately. */
  lemma DifferentTokensIds(operands: seq<Operand>, operators: seq<Operator>, id: nat, x: Token, y: Token)
    requires x != y && x in Written(operands) && y in Written(operands)
    ensures OperatorIds(TokenLexemes(operands, operators, x)) + OperatorIds(TokenLexemes(operands, operators, y))
         <= OperatorIds(Lexemes(RawChain(operands, operators, id)))
  {
    hide Tokens, TokenLexemes, ChainLexemes, Written, OperatorIds;
    var tokens := Written(operands);
    var p :| 0 <= p < |tokens| && tokens[p] == x;
    var q :| 0 <= q < |tokens| && tokens[q] == y;
    if p < q {
      TwoTokensIds(operands, operators, tokens, p, q);
    } else {
      TwoTokensIds(operands, operators, tokens, q, p);
    }
    OperatorIdsAfter(ChainMark(id), ChainLexemes(operands, operators, tokens));
  }

  lemma OperatorTokenWritten(operands: seq<Operand>, j: nat)
    requires j + 1 < |operands|
    ensures OperatorToken(j) in Written(operands)
  {
    var s := Shape(Nots(operands), seq(|operands| - 1, _ => Fixity(0, LeftAssoc)));
    OperatorsOfTokens(s, 0, 0, |operands|, j);
  }

  lemma OperatorTokenIds(operands: seq<Operand>, operators: seq<Operator>, j: nat)
    requires j < |operators|
    ensures OperatorIds(TokenLexemes(operands, operators, OperatorToken(j))) == multiset{operators[j].nodeId}
  {
    OperatorIdsAround([], OperatorApplied(operators[j]), []);
    assert [] + [OperatorApplied(operators[j])] + [] == TokenLexemes(operands, operators, OperatorToken(j));
  }

  lemma RootIdIn(e: Expr)
    requires e.BinaryOp?
    ensures e.nodeId in OperatorIds(Lexemes(e))
  {
    OperatorIdsAround(Lexemes(e.left), OperatorMark(e.op, None, e.nodeId), Lexemes(e.right));
  }

  lemma OperatorsDiffer(operands: seq<Operand>, operators: seq<Operator>, id: nat, i: nat, j: nat)
    requires |operands| == |operators| + 1 && UniqueIds(RawChain(operands, operators, id)) && i < j < |operators|
    ensures operators[i].nodeId != operators[j].nodeId
  {
    hide Lexemes, OperatorIds, TokenLexemes, Written;
    OperatorTokenWritten(operands, i);
    OperatorTokenWritten(operands, j);
    OperatorTokenIds(operands, operators, i);
    OperatorTokenIds(operands, operators, j);
    DifferentTokensIds(operands, operators, id, OperatorToken(i), OperatorToken(j));
    var both := multiset{operators[i].nodeId} + multiset{operators[j].nodeId};
    assert both[operators[i].nodeId] <= OperatorIds(Lexemes(RawChain(operands, operators, id)))[operators[i].nodeId];
  }

  lemma RootDiffers(operands: seq<Operand>, operators: seq<Operator>, id: nat, i: nat, j: nat, root: nat)
    requires |operands| == |operators| + 1 && UniqueIds(RawChain(operands, operators, id)) && i < |operands| && j < |operators|
    requires root in OperatorIds(Lexemes(operands[i].expr))
    ensures root != operators[j].nodeId
  {
    OperandsOfTokens(Nots(operands), 0, 0, |operands|, i);
    OperatorTokenWritten(operands, j);
    OperatorTokenIds(operands, operators, j);
    assert TokenLexemes(operands, operators, OperandToken(i)) == Lexemes(operands[i].expr);
    hide Lexemes, OperatorIds, TokenLexemes, Tokens;
    DifferentTokensIds(operands, operators, id, OperandToken(i), OperatorToken(j));
    var both := OperatorIds(Lexemes(operands[i].expr)) + multiset{operators[j].nodeId};
    assert both[root] <= OperatorIds(Lexemes(RawChain(operands, operators, id)))[root];
  }

  /** Program-wide unique ids make the ids of one chain distinct, also after its operands are rewritten:
      all that matters is that operand i' carries no id operand i did not. */
  lemma UniqueIdsDistinct(c: Chain, c': Chain, id: nat)
    requires c.Valid() && c'.Valid() && |c'.operands| == |c.operands| && c'.operators == c.operators
    requires UniqueIds(RawChain(c.operands, c.operators, id))
    requires forall i :: 0 <= i < |c.operands| ==>
                           OperatorIds(Lexemes(c'.operands[i].expr)) <= OperatorIds(Lexemes(c.operands[i].expr))
    ensures DistinctIds(c')
  {
    hide Lexemes, OperatorIds, UniqueIds;
    forall i, j | 0 <= i < j < |c.operators|
      ensures c.operators[i].nodeId != c.operators[j].nodeId
    {
      OperatorsDiffer(c.operands, c.operators, id, i, j);
    }
    forall i, j | 0 <= i < |c.operands| && 0 <= j < |c.operators| && c'.operands[i].expr.BinaryOp?
      ensures c'.operands[i].expr.nodeId != c.operators[j].nodeId
    {
      RootIdIn(c'.operands[i].expr);
      RootDiffers(c.operands, c.operators, id, i, j, c'.operands[i].expr.nodeId);
    }
  }

  // ----- The theorem -----

  ghost function RewriteOperands(grouped: map<nat, Expr>, fixities: map<nat, seq<Fixity>>, operands: seq<Operand>): (rs: seq<Operand>)
    requires forall i :: 0 <= i < |operands| ==> Resolved(grouped, fixities, operands[i].expr)
    ensures |rs| == |operands|
  {
    seq(|operands|, i requires 0 <= i < |operands| =>
      Operand(Rewrite(grouped, fixities, operands[i].expr), operands[i].prefixNots))
  }

  lemma RewriteOfApplied(grouped: map<nat, Expr>, fixities: map<nat, seq<Fixity>>, left: Expr, operator: Operator, right: Expr)
    requires Resolved(grouped, fixities, left) && Resolved(grouped, fixities, right)
    ensures Resolved(grouped, fixities, Applied(left, operator, right))
    ensures Rewrite(grouped, fixities, Applied(left, operator, right))
         == Applied(Rewrite(grouped, fixities, left), operator, Rewrite(grouped, fixities, right))
  {
  }

  /** Rewriting a built tree substitutes the rewritten operands at its leaves. */
  lemma {:induction false} RewriteOfBuild(grouped: map<nat, Expr>, fixities: map<nat, seq<Fixity>>, c: Chain, c': Chain,
                                          t: Tree, i: nat, k: nat, f: nat)
    requires c.Valid() && c'.Valid() && c'.operators == c.operators
    requires forall i :: 0 <= i < |c.operands| ==> Resolved(grouped, fixities, c.operands[i].expr)
    requires c'.operands == RewriteOperands(grouped, fixities, c.operands)
    requires Spans(c.Shape(), t, i, k, f)
    ensures Resolved(grouped, fixities, Build(c, t)) && Rewrite(grouped, fixities, Build(c, t)) == Build(c', t)
  {
    hide Lexemes, HasGrouping, LexemesOfAll;
    match t {
      case Leaf(_) =>
      case Neg(_, _, body) => RewriteOfBuild(grouped, fixities, c, c', body, i, k + 1, f);
      case Node(j, left, right) =>
        RewriteOfBuild(grouped, fixities, c, c', left, i, k, j + 1);
        RewriteOfBuild(grouped, fixities, c, c', right, j + 1, 0, f);
        RewriteOfApplied(grouped, fixities, Build(c, left), c.operators[j], Build(c, right));
        hide Rewrite, Resolved, Applied;
    }
  }

  /** What grouping makes of operands that are rewritten first. */
  ghost function Rewritten(grouped: map<nat, Expr>, fixities: map<nat, seq<Fixity>>, c: Chain): Chain
    requires forall i :: 0 <= i < |c.operands| ==> Resolved(grouped, fixities, c.operands[i].expr)
  {
    c.(operands := RewriteOperands(grouped, fixities, c.operands))
  }

  lemma RewrittenChain(grouped: map<nat, Expr>, fixities: map<nat, seq<Fixity>>, c: Chain, id: nat)
    requires c.Valid() && UniqueIds(RawChain(c.operands, c.operators, id))
    requires forall i :: 0 <= i < |c.operands| ==> Resolved(grouped, fixities, c.operands[i].expr)
    ensures var c' := Rewritten(grouped, fixities, c);
            && c'.Valid() && c'.Shape() == c.Shape() && c'.Comparisons() == c.Comparisons() && DistinctIds(c) && DistinctIds(c')
            && (MixesBefore(c', |c'.fixities|) <==> MixesBefore(c, |c.fixities|))
            && forall n :: MixesBefore(c', n) <==> MixesBefore(c, n)
  {
    var c' := Rewritten(grouped, fixities, c);
    forall i | 0 <= i < |c.operands|
      ensures OperatorIds(Lexemes(c'.operands[i].expr)) <= OperatorIds(Lexemes(c.operands[i].expr))
    {
      RewriteKeepsIds(grouped, fixities, c.operands[i].expr);
    }
    UniqueIdsDistinct(c, c, id);
    UniqueIdsDistinct(c, c', id);
    assert c'.Shape().nots == c.Shape().nots;
    assert forall i, j :: Mixes(c', i, j) <==> Mixes(c, i, j);
  }

  /** A chain is rejected over raw operands exactly if it is over rewritten ones, with the same error. */
  lemma RewriteCommutesWithRejection(grouped: map<nat, Expr>, fixities: map<nat, seq<Fixity>>, c: Chain, id: nat, error: GroupError)
    requires c.Valid() && UniqueIds(RawChain(c.operands, c.operators, id))
    requires forall i :: 0 <= i < |c.operands| ==> Resolved(grouped, fixities, c.operands[i].expr)
    ensures Rewritten(grouped, fixities, c).Valid()
    ensures IsGrouping(Rewritten(grouped, fixities, c), Err(error)) <==> IsGrouping(c, Err(error))
  {
    RewrittenChain(grouped, fixities, c, id);
    ReadClimbAgrees(c, 0, 0, 0, {});
    ReadClimbAgrees(Rewritten(grouped, fixities, c), 0, 0, 0, {});
  }

  lemma RewriteCommutesWithGrouping(grouped: map<nat, Expr>, fixities: map<nat, seq<Fixity>>, operands: seq<Operand>,
                                    operators: seq<Operator>, id: nat)
    requires id in grouped && Resolved(grouped, fixities, RawChain(operands, operators, id))
    requires UniqueIds(RawChain(operands, operators, id))
    ensures IsGrouping(Rewritten(grouped, fixities, Chain(operands, operators, fixities[id])),
                       Ok(Rewrite(grouped, fixities, RawChain(operands, operators, id))))
  {
    var c := Chain(operands, operators, fixities[id]);
    var c' := Rewritten(grouped, fixities, c);
    RewrittenChain(grouped, fixities, c, id);
    GroupingProgress(grouped, fixities, RawChain(operands, operators, id));
    var t, _ := GroupingReadsAsChain(c, grouped[id]);
    RewriteOfBuild(grouped, fixities, c, c', t, 0, 0, Group(c.Shape()).1);
    ReadClimbAgrees(c, 0, 0, 0, {});
    ReadClimbAgrees(c', 0, 0, 0, {});
    ReadClimbBuilds(c', 0, 0, 0, {});
  }
}
