/**
  Whole programs evaluated from their syntax trees in the top-level tracker, with
  the results the evaluator's tests expect.
 */
module EvaluatorExamples {
  import opened Wrappers
  import opened GoLib
  import opened Token
  import opened Ast
  import opened Object
  import opened Tracker
  import opened Evaluator

  /** The tracker `NewTracker` creates for a program: empty, with no outer tracker. */
  const TOP: Heap := [Frame(map[], None)]

  function Num(n: Int64): Expr
  {
    IntegerLiteral(Token(Int, Itoa(n)), n)
  }

  function Bin(left: Expr, kind: TokenType, right: Expr): Expr
  {
    InfixExpression(Token(kind, Tag(kind)), left, Tag(kind), right)
  }

  function Neg(right: Expr): Expr
  {
    PrefixExpression(Token(Minus, "-"), "-", right)
  }

  /** An expression statement; its token is the expression's first token. */
  function Stmt(first: Token, e: Expr): Stmt
  {
    ExpressionStatement(first, e)
  }

  /** `50 / 2 * 2 + 10` is 60. */
  lemma QuotientThenProduct()
    ensures EvalExpr(Bin(Bin(Bin(Num(50), Slash, Num(2)), Asterisk, Num(2)), Plus, Num(10)), 0, TOP, 4)
         == Done(Integer(60), TOP)
  {
    Quotient();
    assert Tag(Asterisk) == "*" && Tag(Plus) == "+";
  }

  /** `50 / 2` is 25. */
  lemma Quotient()
    ensures EvalExpr(Bin(Num(50), Slash, Num(2)), 0, TOP, 2) == Done(Integer(25), TOP)
  {
    assert Tag(Slash) == "/";
    assert Quo(50, 2) == 25;
  }

  /** `-50 + 100 - 50` is 0. */
  lemma NegatedOperand()
    ensures EvalExpr(Bin(Bin(Neg(Num(50)), Plus, Num(100)), Minus, Num(50)), 0, TOP, 4)
         == Done(Integer(0), TOP)
  {
    assert Tag(Plus) == "+" && Tag(Minus) == "-";
  }

  const IF_TOKEN := Token(If, "if")
  const BRACE := Token(LBrace, "{")
  const RETURN_TOKEN := Token(Return, "return")

  /** `if (true) b`. */
  function IfTrue(b: Block): Expr
  {
    IfExpression(IF_TOKEN, BooleanLiteral(Token(True, "true"), true), b, None)
  }

  /** `{ return 10; }` */
  const INNER := Block(BRACE, [ReturnStatement(RETURN_TOKEN, Num(10))])

  /** `{ if (true) { return 10; } return 1; }` */
  const OUTER := Block(BRACE, [Stmt(IF_TOKEN, IfTrue(INNER)), ReturnStatement(RETURN_TOKEN, Num(1))])

  /** `if (true) { return 10; }` yields the return value 10, still wrapped. */
  lemma InnerIf()
    ensures EvalExpr(IfTrue(INNER), 0, TOP, 5) == Done(ReturnValue(Integer(10)), TOP)
  {
    assert EvalStmt(ReturnStatement(RETURN_TOKEN, Num(10)), 0, TOP, 3) == Done(ReturnValue(Integer(10)), TOP);
  }

  /** The inner `return` ends the outer block before its own `return 1`. */
  lemma OuterBlock()
    ensures EvalBlock(OUTER, 0, TOP, 7) == Done(ReturnValue(Integer(10)), TOP)
  {
    InnerIf();
    assert EvalStmt(OUTER.statements[0], 0, TOP, 6) == Done(ReturnValue(Integer(10)), TOP);
  }

  /** `if (true) { if (true) { return 10; } return 1; }` is 10: the inner `return` ends
      both blocks and the program unwraps it. */
  lemma NestedReturn()
    ensures EvalProgram(Program([Stmt(IF_TOKEN, IfTrue(OUTER))]), 0, TOP, 10) == Done(Integer(10), TOP)
  {
    OuterBlock();
    assert EvalExpr(IfTrue(OUTER), 0, TOP, 8) == Done(ReturnValue(Integer(10)), TOP);
  }
}
