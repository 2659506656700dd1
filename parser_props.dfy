/**
  Properties of the parser on particular token streams: the statement tokens of a
  lexed input carry their keyword, an empty input parses to an empty program, and
  the operator nestings the parser's tests expect.
 */
module ParserProps {
  import opened Wrappers
  import opened GoLib
  import opened Token
  import opened Lexer
  import opened Ast
  import opened ParserSpec

  /** Every token of a lexed input is well formed. */
  lemma StreamWellFormed(input: Bytes, i: nat)
    ensures WellFormed(At(Tokenize(input), i))
  {
    TokenizeIsStream(input, i);
    ScanWellFormed(input, PosAfter(input, 0, i));
  }

  /** On a lexed input, a `let` statement's token literal is "let", a `return`
      statement's is "return", and the bound name's literal is its value. */
  lemma StatementTokenLiterals(input: Bytes, st: ParserState)
    requires st.cur <= |Tokenize(input)|
    ensures var r := ParseStatement(Tokenize(input), st);
      r.Parsed? ==>
        && (r.value.LetStatement? ==> r.value.TokenLiteral() == "let" && r.value.name.TokenLiteral() == r.value.name.value)
        && (r.value.ReturnStatement? ==> r.value.TokenLiteral() == "return")
  {
    StreamWellFormed(input, st.cur);
  }

  /** An empty input parses to a program with no statements and no errors. */
  lemma EmptyInput()
    ensures ParseProgram(Tokenize("")) == Parsed(Program([]), ParserState(0, []))
    ensures Program([]).TokenLiteral() == ""
  {
    assert Tokenize("") == [Token(Eof, "")];
  }

  const A := Token(Ident, "a")
  const B := Token(Ident, "b")
  const C := Token(Ident, "c")
  const PLUS := Token(Plus, "+")
  const STAR := Token(Asterisk, "*")
  const MINUS := Token(Minus, "-")
  const EOF := Token(Eof, "")

  function Var(t: Token): Expr { IdentifierExpr(Identifier(t, t.literal)) }
  function Bin(l: Expr, op: Token, r: Expr): Expr { InfixExpression(op, l, op.literal, r) }

  /** `a + b + c` nests to the left: `((a + b) + c)`. */
  lemma LeftNesting()
    ensures ParseExpression([A, PLUS, B, PLUS, C, EOF], ParserState(0, []), LOWEST)
         == (Bin(Bin(Var(A), PLUS, Var(B)), PLUS, Var(C)), ParserState(4, []))
  {
    var ts := [A, PLUS, B, PLUS, C, EOF];
    var ab := Bin(Var(A), PLUS, Var(B));
    assert ParseExpression(ts, ParserState(4, []), SUM) == (Var(C), ParserState(4, []));
    assert ParseInfixLoop(ts, ParserState(4, []), LOWEST, Bin(ab, PLUS, Var(C)))
        == (Bin(ab, PLUS, Var(C)), ParserState(4, []));
    assert ParseInfix(ts, ParserState(3, []), ab) == (Bin(ab, PLUS, Var(C)), ParserState(4, []));
    assert ParseExpression(ts, ParserState(2, []), SUM) == (Var(B), ParserState(2, []));
    assert ParseInfix(ts, ParserState(1, []), Var(A)) == (ab, ParserState(2, []));
    assert ParseInfixLoop(ts, ParserState(2, []), LOWEST, ab) == (Bin(ab, PLUS, Var(C)), ParserState(4, []));
  }

  /** `a + b * c` puts the tighter operator inside: `(a + (b * c))`. */
  lemma TighterNestsInside()
    ensures ParseExpression([A, PLUS, B, STAR, C, EOF], ParserState(0, []), LOWEST)
         == (Bin(Var(A), PLUS, Bin(Var(B), STAR, Var(C))), ParserState(4, []))
  {
    var ts := [A, PLUS, B, STAR, C, EOF];
    var bc := Bin(Var(B), STAR, Var(C));
    assert ParseExpression(ts, ParserState(4, []), PRODUCT) == (Var(C), ParserState(4, []));
    assert ParseInfix(ts, ParserState(3, []), Var(B)) == (bc, ParserState(4, []));
    assert ParseInfixLoop(ts, ParserState(4, []), SUM, bc) == (bc, ParserState(4, []));
    assert ParseInfixLoop(ts, ParserState(2, []), SUM, Var(B)) == (bc, ParserState(4, []));
    assert ParseExpression(ts, ParserState(2, []), SUM) == (bc, ParserState(4, []));
    assert ParseInfix(ts, ParserState(1, []), Var(A)) == (Bin(Var(A), PLUS, bc), ParserState(4, []));
  }

  const BANG := Token(Bang, "!")

  /** `-a * b` applies the prefix operator first: `((-a) * b)`. */
  lemma PrefixBindsTighter()
    ensures ParseExpression([MINUS, A, STAR, B, EOF], ParserState(0, []), LOWEST)
         == (Bin(PrefixExpression(MINUS, "-", Var(A)), STAR, Var(B)), ParserState(3, []))
  {
    var ts := [MINUS, A, STAR, B, EOF];
    var na := PrefixExpression(MINUS, "-", Var(A));
    assert ParseExpression(ts, ParserState(1, []), PREFIX) == (Var(A), ParserState(1, []));
    assert ApplyPrefix(ts, ParserState(0, [])) == (na, ParserState(1, []));
    assert ParseExpression(ts, ParserState(3, []), PRODUCT) == (Var(B), ParserState(3, []));
    assert ParseInfix(ts, ParserState(2, []), na) == (Bin(na, STAR, Var(B)), ParserState(3, []));
  }

  /** `!-a` nests the prefix operators: `(!(-a))`. */
  lemma PrefixOfPrefix()
    ensures ParseExpression([BANG, MINUS, A, EOF], ParserState(0, []), LOWEST)
         == (PrefixExpression(BANG, "!", PrefixExpression(MINUS, "-", Var(A))), ParserState(2, []))
  {
    var ts := [BANG, MINUS, A, EOF];
    assert ParseExpression(ts, ParserState(2, []), PREFIX) == (Var(A), ParserState(2, []));
    assert ParseExpression(ts, ParserState(1, []), PREFIX)
        == (PrefixExpression(MINUS, "-", Var(A)), ParserState(2, []));
  }

  const LET := Token(Let, "let")
  const RETURN := Token(Return, "return")
  const ASSIGN := Token(Assign, "=")
  const SEMI := Token(Semicolon, ";")
  const FIVE := Token(Int, "5")

  /** `return 5; return a; return b;`. */
  const RETURNS := [RETURN, FIVE, SEMI, RETURN, A, SEMI, RETURN, B, SEMI, EOF]
  const BARE_RETURN := ReturnStatement(RETURN, Missing)

  /** The last statement of `RETURNS`. */
  lemma LastReturn()
    ensures ParseStatements(RETURNS, ParserState(6, [])) == Parsed([BARE_RETURN], ParserState(9, []))
  {
    var ts := RETURNS;
    var r := BARE_RETURN;
    assert ParseStatements(ts, ParserState(9, [])) == Parsed([], ParserState(9, []));
    assert NextSemicolon(ts, 7) == Some(8);
    assert ParseStatement(ts, ParserState(6, [])) == Parsed(r, ParserState(8, []));
    assert [r] + [] == [r];
  }

  /** The last two statements of `RETURNS`. */
  lemma LastTwoReturns()
    ensures ParseStatements(RETURNS, ParserState(3, [])) == Parsed([BARE_RETURN, BARE_RETURN], ParserState(9, []))
  {
    var ts := RETURNS;
    var r := BARE_RETURN;
    LastReturn();
    assert [r] + [r] == [r, r];
    assert NextSemicolon(ts, 4) == Some(5);
    assert ParseStatement(ts, ParserState(3, [])) == Parsed(r, ParserState(5, []));
  }

  /** `return 5; return a; return b;` gives exactly three return statements, none of
      which has a parsed value. */
  lemma ThreeReturns()
    ensures ParseProgram(RETURNS)
         == Parsed(Program([BARE_RETURN, BARE_RETURN, BARE_RETURN]), ParserState(9, []))
  {
    var ts := RETURNS;
    var r := BARE_RETURN;
    LastTwoReturns();
    assert [r] + [r, r] == [r, r, r];
    assert NextSemicolon(ts, 1) == Some(2);
    assert ParseStatement(ts, ParserState(0, [])) == Parsed(r, ParserState(2, []));
  }

  const NAME_ERROR: Bytes := "expected next token : INDENT , but get ="
  const ASSIGN_ERROR: Bytes := "no prefix parse function for = found "

  /** `let = a;`: the missing name is reported, a nil statement is kept, and parsing
      resumes at `=`, which has no prefix handler, and then at `a`. */
  lemma LetWithoutName()
    ensures var ts := [LET, ASSIGN, A, SEMI, EOF];
      ParseProgram(ts)
      == Parsed(Program([NilLet, ExpressionStatement(ASSIGN, Missing), ExpressionStatement(A, Var(A))]),
                ParserState(4, [NAME_ERROR, ASSIGN_ERROR]))
  {
    var ts := [LET, ASSIGN, A, SEMI, EOF];
    var s1 := ExpressionStatement(ASSIGN, Missing);
    var s2 := ExpressionStatement(A, Var(A));
    MissingName();
    AfterMissingName();
    assert [NilLet] + [s1, s2] == [NilLet, s1, s2];
  }

  /** The nil `let`: the error names the `=` found where the name should be. */
  lemma MissingName()
    ensures ParseStatement([LET, ASSIGN, A, SEMI, EOF], ParserState(0, []))
         == Parsed(NilLet, ParserState(0, [NAME_ERROR]))
  {
    assert PeekErrorMessage(Ident, Assign) == NAME_ERROR;
  }

  /** The statements after the nil `let`. */
  lemma AfterMissingName()
    ensures ParseStatements([LET, ASSIGN, A, SEMI, EOF], ParserState(1, [NAME_ERROR]))
         == Parsed([ExpressionStatement(ASSIGN, Missing), ExpressionStatement(A, Var(A))],
                   ParserState(4, [NAME_ERROR, ASSIGN_ERROR]))
  {
    var ts := [LET, ASSIGN, A, SEMI, EOF];
    var e1 := [NAME_ERROR];
    var e2 := [NAME_ERROR, ASSIGN_ERROR];
    var s1 := ExpressionStatement(ASSIGN, Missing);
    var s2 := ExpressionStatement(A, Var(A));
    assert NoPrefixMessage(Assign) == ASSIGN_ERROR;
    assert e1 + [NoPrefixMessage(Assign)] == e2;
    assert [s2] + [] == [s2] && [s1] + [s2] == [s1, s2];
    assert ParseStatements(ts, ParserState(4, e2)) == Parsed([], ParserState(4, e2));
    assert ParseExpression(ts, ParserState(2, e2), LOWEST) == (Var(A), ParserState(2, e2));
    assert ParseStatement(ts, ParserState(2, e2)) == Parsed(s2, ParserState(3, e2));
    assert ParseStatements(ts, ParserState(2, e2)) == Parsed([s2], ParserState(4, e2));
    assert ParseStatement(ts, ParserState(1, e1)) == Parsed(s1, ParserState(1, e2));
  }

  /** `return a` with no `;` after it never finishes parsing. */
  lemma ReturnWithoutSemicolonHangs()
    ensures ParseProgram([RETURN, A, EOF]).Hangs?
  {
    assert ParseStatement([RETURN, A, EOF], ParserState(0, [])).Hangs?;
  }
}
