/**
  The parser object: the token stream it reads, the current and the peek token, and
  the error list. Every method is proved to do to this state exactly what the
  corresponding function of `ParserSpec` does to a cursor into the stream; the
  properties proved of those functions therefore carry over.
 */
module Parser {
  import opened GoLib
  import opened Token
  import opened Lexer
  import opened Ast
  import ParserSpec

  class Parser {
    /** The tokens the lexer produces, in order (`Tokenize`); reading them one by one is
        what Go's calls of `l.NextToken()` do (`TokenizeIsStream`). */
    const tokens: seq<Token>
    /** The index of `curToken` in the stream. */
    var cur: nat
    var curToken: Token
    var peekToken: Token
    var errors: seq<Bytes>

    /** The two tokens are those at `cur` and `cur + 1`. */
    ghost predicate Valid()
      reads this
    {
      curToken == At(tokens, cur) && peekToken == At(tokens, cur + 1)
    }

    /** The parser's state as the specification functions see it. */
    ghost function State(): ParserSpec.ParserState
      reads this
    {
      ParserSpec.ParserState(cur, errors)
    }

    /** `New`: read two tokens from a fresh lexer, so that `curToken` and `peekToken`
        are its first and second tokens, with no errors. The handler tables are the
        constants `ParserSpec.PrefixParseFns` and `ParserSpec.InfixParseFns`. */
    constructor New(l: Lexer)
      requires l.Valid() && l.position == 0
      ensures Valid() && tokens == Tokenize(l.input) && cur == 0 && errors == []
      ensures curToken == LexTok(l.input, 0) && peekToken == LexTok(l.input, 1)
    {
      tokens := Tokenize(l.input);
      errors := [];
      cur := 0;
      curToken := At(Tokenize(l.input), 0);
      peekToken := At(Tokenize(l.input), 1);
      TokenizeIsStream(l.input, 0);
      TokenizeIsStream(l.input, 1);
    }

    /** `nextToken`: the peek token becomes the current one and the next token of the
        stream becomes the peek token. */
    method NextToken()
      requires Valid()
      modifies this
      ensures Valid() && cur == old(cur) + 1 && errors == old(errors)
      ensures curToken == old(peekToken) && peekToken == At(tokens, cur + 1)
    {
      curToken := peekToken;
      peekToken := At(tokens, cur + 2);
      cur := cur + 1;
    }

    function Errors(): (e: seq<Bytes>)
      reads this
      ensures e == errors
    {
      errors
    }

    /** `peekError`: record that the peek token is not of kind `t`. */
    method PeekError(t: TokenType)
      modifies this
      ensures errors == old(errors) + [ParserSpec.PeekErrorMessage(t, peekToken.kind)]
      ensures curToken == old(curToken) && peekToken == old(peekToken) && cur == old(cur)
    {
      errors := errors + [ParserSpec.PeekErrorMessage(t, peekToken.kind)];
    }

    /** `expectPeek`. */
    method ExpectPeek(t: TokenType) returns (ok: bool)
      requires Valid()
      modifies this
      ensures Valid() && (ok, State()) == ParserSpec.ExpectPeek(tokens, old(State()), t)
    {
      if peekToken.kind == t {
        NextToken();
        return true;
      } else {
        PeekError(t);
        return false;
      }
    }

    function PeekPrecedence(): (p: nat)
      reads this
      ensures p == ParserSpec.Precedence(peekToken.kind)
    {
      if peekToken.kind in ParserSpec.Precedences then ParserSpec.Precedences[peekToken.kind]
      else ParserSpec.LOWEST
    }

    function CurPrecedence(): (p: nat)
      reads this
      ensures p == ParserSpec.Precedence(curToken.kind)
    {
      if curToken.kind in ParserSpec.Precedences then ParserSpec.Precedences[curToken.kind]
      else ParserSpec.LOWEST
    }

    method ParseIdentifier() returns (e: Expr)
      requires Valid() && cur <= |tokens| && curToken.kind == Ident
      ensures (e, State()) == ParserSpec.ApplyPrefix(tokens, State())
      ensures e.IdentifierExpr? && e.id.value == curToken.literal
    {
      return IdentifierExpr(Identifier(curToken, curToken.literal));
    }

    method ParseIntegerLiteral() returns (e: Expr)
      requires Valid() && cur <= |tokens| && curToken.kind == Int
      modifies this
      ensures Valid() && (e, State()) == ParserSpec.ApplyPrefix(tokens, old(State()))
    {
      var value := ParseInt0(curToken.literal);
      match value {
        case Some(v) =>
          return IntegerLiteral(curToken, v);
        case None =>
          errors := errors + [ParserSpec.IntegerErrorMessage(curToken.literal)];
          return Missing;
      }
    }

    method ParseBoolean() returns (e: Expr)
      requires Valid() && cur <= |tokens| && (curToken.kind == True || curToken.kind == False)
      ensures (e, State()) == ParserSpec.ApplyPrefix(tokens, State())
      ensures e.BooleanLiteral? && (e.boolValue <==> curToken.kind == True)
    {
      return BooleanLiteral(curToken, curToken.kind == True);
    }

    /** `noPrefixParsfnError`. */
    method NoPrefixParseFnError(t: TokenType)
      modifies this
      ensures errors == old(errors) + [ParserSpec.NoPrefixMessage(t)]
      ensures curToken == old(curToken) && peekToken == old(peekToken) && cur == old(cur)
    {
      errors := errors + [ParserSpec.NoPrefixMessage(t)];
    }

    method ParsePrefixExpression() returns (e: Expr)
      requires Valid() && cur <= |tokens| && (curToken.kind == Bang || curToken.kind == Minus)
      modifies this
      ensures Valid() && (e, State()) == ParserSpec.ApplyPrefix(tokens, old(State()))
      decreases |tokens| - cur, 0
    {
      var token := curToken;
      NextToken();
      var right := ParseExpression(ParserSpec.PREFIX);
      return PrefixExpression(token, token.literal, right);
    }

    /** The call `prefix()` of the handler registered for the current token. The handlers
        for strings, `(`, `if` and `func` are not part of this model: they give an
        `Unparsed` node and consume only their own token. */
    method ApplyPrefix(fn: ParserSpec.PrefixFn) returns (e: Expr)
      requires Valid() && cur <= |tokens| && curToken.kind in ParserSpec.PrefixParseFns
      requires fn == ParserSpec.PrefixParseFns[curToken.kind]
      modifies this
      ensures Valid() && (e, State()) == ParserSpec.ApplyPrefix(tokens, old(State()))
      decreases |tokens| - cur, 1
    {
      match fn {
        case IdentifierFn => e := ParseIdentifier();
        case IntegerLiteralFn => e := ParseIntegerLiteral();
        case BooleanFn => e := ParseBoolean();
        case PrefixExpressionFn => e := ParsePrefixExpression();
        case _ => e := Unparsed(curToken);
      }
    }

    method ParseInfixExpression(left: Expr) returns (e: Expr)
      requires Valid() && cur < |tokens|
      modifies this
      ensures Valid() && (e, State()) == ParserSpec.ParseInfix(tokens, old(State()), left)
      decreases |tokens| - cur, 3
    {
      var token := curToken;
      var precedence := CurPrecedence();
      NextToken();
      var right := ParseExpression(precedence);
      return InfixExpression(token, left, token.literal, right);
    }

    /** `parseExpression`: the Pratt loop. Go's loop also returns when the peek token
        has no infix handler, and dispatches `(` to the call handler; neither can happen,
        because only the operators with a precedence above LOWEST enter the loop and
        all of them have the binary handler. */
    method ParseExpression(precedence: nat) returns (e: Expr)
      requires Valid() && cur <= |tokens| && precedence >= ParserSpec.LOWEST
      modifies this
      ensures Valid() && (e, State()) == ParserSpec.ParseExpression(tokens, old(State()), precedence)
      decreases |tokens| - cur, 2
    {
      if curToken.kind !in ParserSpec.PrefixParseFns {
        NoPrefixParseFnError(curToken.kind);
        return Missing;
      }
      var leftExp := ApplyPrefix(ParserSpec.PrefixParseFns[curToken.kind]);
      while peekToken.kind != Semicolon && precedence < PeekPrecedence()
        invariant Valid() && cur <= |tokens|
        invariant ParserSpec.ParseExpression(tokens, old(State()), precedence)
               == ParserSpec.ParseInfixLoop(tokens, State(), precedence, leftExp)
        decreases |tokens| - cur
      {
        ParserSpec.InfixHandlerCoversPrecedence(peekToken.kind);
        var infix := ParserSpec.InfixParseFns[peekToken.kind];
        assert infix == ParserSpec.InfixExpressionFn;
        NextToken();
        leftExp := ParseInfixExpression(leftExp);
      }
      return leftExp;
    }

    method ParseExpressionStatement() returns (s: Stmt)
      requires Valid() && cur <= |tokens|
      modifies this
      ensures Valid() && (s, State()) == ParserSpec.ParseExpressionStatement(tokens, old(State()))
    {
      var token := curToken;
      var expression := ParseExpression(ParserSpec.LOWEST);
      if peekToken.kind == Semicolon {
        NextToken();
      }
      return ExpressionStatement(token, expression);
    }

    method ParseLetStatement() returns (s: Stmt)
      requires Valid() && cur <= |tokens|
      modifies this
      ensures Valid() && (s, State()) == ParserSpec.ParseLetStatement(tokens, old(State()))
    {
      ghost var st := State();
      var token := curToken;
      var ok := ExpectPeek(Ident);
      if !ok {
        return NilLet;
      }
      var name := Identifier(curToken, curToken.literal);
      ok := ExpectPeek(Assign);
      if !ok {
        return NilLet;
      }
      NextToken();
      assert State() == ParserSpec.Advance(ParserSpec.Advance(ParserSpec.Advance(st)));
      var value := ParseExpression(ParserSpec.LOWEST);
      ghost var last := cur;
      ghost var found := errors;
      while curToken.kind != Semicolon && curToken.kind != Eof
        invariant Valid() && last <= cur <= |tokens| && errors == found
        invariant ParserSpec.SkipToEnd(tokens, cur) == ParserSpec.SkipToEnd(tokens, last)
        decreases |tokens| - cur
      {
        NextToken();
      }
      ghost var r := ParserSpec.ParseLetStatement(tokens, st);
      assert State() == r.1 && LetStatement(token, name, value) == r.0;
      return LetStatement(token, name, value);
    }

    /** `parseReturnStatement`. Go's loop runs forever when no `;` follows the keyword;
        the method is for the inputs where it ends. */
    method ParseReturnStatement() returns (s: Stmt)
      requires Valid() && ParserSpec.ParseReturnStatement(tokens, State()).Parsed?
      modifies this
      ensures Valid() && ParserSpec.ParseReturnStatement(tokens, old(State())) == ParserSpec.Parsed(s, State())
    {
      ghost var stop := ParserSpec.NextSemicolon(tokens, cur + 1).value;
      s := ReturnStatement(curToken, Missing);
      NextToken();
      while curToken.kind != Semicolon
        invariant Valid() && cur <= stop && errors == old(errors)
        invariant ParserSpec.NextSemicolon(tokens, cur) == ParserSpec.NextSemicolon(tokens, old(cur) + 1)
        decreases stop - cur
      {
        NextToken();
      }
    }

    method ParseStatement() returns (s: Stmt)
      requires Valid() && cur <= |tokens| && ParserSpec.ParseStatement(tokens, State()).Parsed?
      modifies this
      ensures Valid() && ParserSpec.ParseStatement(tokens, old(State())) == ParserSpec.Parsed(s, State())
    {
      if curToken.kind == Let {
        s := ParseLetStatement();
      } else if curToken.kind == Return {
        s := ParseReturnStatement();
      } else {
        s := ParseExpressionStatement();
      }
    }

    /** `ParseProgram`: one statement per iteration until the current token is EOF. It
        is for the inputs on which no `return` loops forever. */
    method ParseProgram() returns (program: Program)
      requires Valid() && cur <= |tokens| + 1
      requires ParserSpec.ParseStatements(tokens, State()).Parsed?
      modifies this
      ensures Valid()
      ensures ParserSpec.ParseStatements(tokens, old(State()))
           == ParserSpec.Parsed(program.statements, State())
    {
      ghost var all := ParserSpec.ParseStatements(tokens, old(State()));
      program := Program([]);
      while curToken.kind != Eof
        invariant Valid() && cur <= |tokens| + 1
        invariant ParserSpec.ParseStatements(tokens, State()).Parsed?
        invariant all.value == program.statements + ParserSpec.ParseStatements(tokens, State()).value
        invariant all.st == ParserSpec.ParseStatements(tokens, State()).st
        decreases |tokens| + 1 - cur
      {
        ghost var before := State();
        var stmt := ParseStatement();
        ghost var after := State();
        assert ParserSpec.ParseStatements(tokens, before)
            == ParserSpec.Prepend(stmt, ParserSpec.ParseStatements(tokens, ParserSpec.Advance(after)));
        program := Program(program.statements + [stmt]);
        NextToken();
        assert State() == ParserSpec.Advance(after);
      }
      assert ParserSpec.ParseStatements(tokens, State()) == ParserSpec.Parsed([], State());
      assert program.statements + [] == program.statements;
    }
  }
}
