/** Syntax the infix grouper works on: raw chains, and the expressions they group into.

    Source spans are left out; every other attribute the grouper reads or writes is kept. */
module InfixSyntax {

  datatype Assoc = LeftAssoc | RightAssoc

  datatype Fixity = Fixity(priority: int, assoc: Assoc)

  datatype Operator = Operator(name: string, calleeId: nat, nodeId: nat)

  datatype PrefixNot = PrefixNot(nodeId: nat)

  datatype Operand = Operand(expr: Expr, prefixNots: seq<PrefixNot>)

  /** `Other` stands for every node that is neither an operator application nor a raw chain. */
  datatype Expr =
    | BinaryOp(op: string, left: Expr, right: Expr, nodeId: nat)
    | OperatorCall(callee: string, calleeId: nat, first: Expr, second: Expr, callId: nat)
    | UnaryNot(operand: Expr, notId: nat)
    | RawChain(operands: seq<Operand>, operators: seq<Operator>, chainId: nat)
    | Other(tag: string, children: seq<Expr>)

  const NOT_PRIORITY := 25
  const COMPARISON_PRIORITY := 30

  const NON_ASSOCIATIVE: set<string> := {"in", "==", "!=", "<", "<=", ">", ">="}

  const BUILTIN_FIXITIES: map<string, Fixity> := map[
    "or" := Fixity(10, LeftAssoc),
    "and" := Fixity(20, LeftAssoc),
    "in" := Fixity(30, LeftAssoc),
    "==" := Fixity(30, LeftAssoc),
    "!=" := Fixity(30, LeftAssoc),
    "<" := Fixity(30, LeftAssoc),
    "<=" := Fixity(30, LeftAssoc),
    ">" := Fixity(30, LeftAssoc),
    ">=" := Fixity(30, LeftAssoc),
    "+" := Fixity(40, LeftAssoc),
    "-" := Fixity(40, LeftAssoc),
    "*" := Fixity(50, LeftAssoc),
    "/" := Fixity(50, LeftAssoc)
  ]

  predicate IsComparison(operator: Operator) {
    operator.name in NON_ASSOCIATIVE
  }

  /** The least priority an operator of this fixity lets its right operand start with. */
  function RightMinimum(fixity: Fixity): int {
    if fixity.assoc == LeftAssoc then fixity.priority + 1 else fixity.priority
  }

  /** A chain holds one more operand than operators, and each operator has a fixity. */
  predicate IsChain(operands: seq<Operand>, operators: seq<Operator>, fixities: seq<Fixity>) {
    |operands| == |operators| + 1 && |fixities| == |operators|
  }

  /** What the resolver hands over: a builtin operator always carries its builtin fixity. */
  predicate UsesBuiltinFixities(operators: seq<Operator>, fixities: seq<Fixity>)
    requires |operators| == |fixities|
  {
    forall j :: 0 <= j < |operators| && operators[j].name in BUILTIN_FIXITIES ==>
                  fixities[j] == BUILTIN_FIXITIES[operators[j].name]
  }
}
