/**
  The parser as functions of a token sequence and a cursor. The sequence is read
  through `At`, so past its end it continues with EOF tokens, as the lexer does.
  A state holds the index of `curToken` (the peek token is the next index) and
  the error list. The `Parser` class in the parser module is proved to compute
  exactly these functions.
 */
module ParserSpec {
  import opened Wrappers
  import opened GoLib
  import opened Token
  import opened Lexer
  import opened Ast

  datatype ParserState = ParserState(cur: nat, errors: seq<Bytes>)

  /** The outcome of a parsing step that may loop forever. */
  datatype Parsed<T> = Parsed(value: T, st: ParserState) | Hangs

  // ---------------------------------------------------------------------
  // Precedence
  // ---------------------------------------------------------------------

  const LOWEST: nat := 1
  const EQUAL: nat := 2
  const LESSGREATER: nat := 3
  const SUM: nat := 4
  const PRODUCT: nat := 5
  const PREFIX: nat := 6
  const CALL: nat := 7

  const Precedences: map<TokenType, nat> :=
    map[Eq := EQUAL, NotEq := EQUAL, Lt := LESSGREATER, Gt := LESSGREATER,
        Plus := SUM, Minus := SUM, Slash := PRODUCT, Asterisk := PRODUCT]

  /** `peekPrecedence` / `curPrecedence` for a token kind: its table entry, LOWEST if none. */
  function Precedence(k: TokenType): (p: nat)
    ensures LOWEST <= p <= PRODUCT
  {
    if k in Precedences then Precedences[k] else LOWEST
  }

  /** The precedence levels are strictly ordered. */
  lemma PrecedenceOrder()
    ensures LOWEST < EQUAL < LESSGREATER < SUM < PRODUCT < PREFIX < CALL
  {
  }

  /** The precedence of every kind; `(`, `<=` and `>=` have no entry and so get LOWEST. */
  lemma PrecedenceTable(k: TokenType)
    ensures Precedence(k) == (if k == Eq || k == NotEq then EQUAL
                              else if k == Lt || k == Gt then LESSGREATER
                              else if k == Plus || k == Minus then SUM
                              else if k == Slash || k == Asterisk then PRODUCT
                              else LOWEST)
    ensures Precedence(LParen) == LOWEST && Precedence(LtEq) == LOWEST && Precedence(GtEq) == LOWEST
  {
  }

  // ---------------------------------------------------------------------
  // Handler registration
  // ---------------------------------------------------------------------

  /** The prefix parse functions. Those for strings, `(`, `if` and `func` are registered but
      their bodies are not part of this model. */
  datatype PrefixFn =
    | IdentifierFn | IntegerLiteralFn | StringLiteralFn | PrefixExpressionFn
    | BooleanFn | GroupedExpressionFn | IfExpressionFn | FunctionLiteralFn

  datatype InfixFn = InfixExpressionFn | CallExpressionFn

  /** The prefix table `New` registers. */
  const PrefixParseFns: map<TokenType, PrefixFn> :=
    map[Ident := IdentifierFn, Int := IntegerLiteralFn, Str := StringLiteralFn,
        Bang := PrefixExpressionFn, Minus := PrefixExpressionFn,
        True := BooleanFn, False := BooleanFn, LParen := GroupedExpressionFn,
        If := IfExpressionFn, Function := FunctionLiteralFn]

  /** The infix table `New` registers. */
  const InfixParseFns: map<TokenType, InfixFn> :=
    map[Plus := InfixExpressionFn, Minus := InfixExpressionFn, Slash := InfixExpressionFn,
        Asterisk := InfixExpressionFn, Eq := InfixExpressionFn, NotEq := InfixExpressionFn,
        Lt := InfixExpressionFn, Gt := InfixExpressionFn, LParen := CallExpressionFn]

  /** Exactly ten kinds have a prefix handler and nine an infix handler. */
  lemma HandlerKinds(k: TokenType)
    ensures k in PrefixParseFns <==>
      k in {Ident, Int, Str, Bang, Minus, True, False, LParen, If, Function}
    ensures k in InfixParseFns <==>
      k in {Plus, Minus, Slash, Asterisk, Eq, NotEq, Lt, Gt, LParen}
  {
  }

  /** Every kind that binds tighter than LOWEST has the binary-operator handler: so the
      Pratt loop never finds a missing infix handler, and never reaches the call handler. */
  lemma InfixHandlerCoversPrecedence(k: TokenType)
    ensures Precedence(k) > LOWEST <==> k in InfixParseFns && InfixParseFns[k] == InfixExpressionFn
  {
  }

  // ---------------------------------------------------------------------
  // Error messages
  // ---------------------------------------------------------------------

  function PeekErrorMessage(expected: TokenType, got: TokenType): Bytes
  {
    "expected next token : " + Tag(expected) + " , but get " + Tag(got)
  }

  function NoPrefixMessage(k: TokenType): Bytes
  {
    "no prefix parse function for " + Tag(k) + " found "
  }

  function IntegerErrorMessage(literal: Bytes): Bytes
  {
    "could not parse " + Quote(literal) + " as integer"
  }

  // ---------------------------------------------------------------------
  // Expressions
  // ---------------------------------------------------------------------

  function Advance(st: ParserState): ParserState { st.(cur := st.cur + 1) }

  function Fail(st: ParserState, message: Bytes): ParserState
  {
    st.(errors := st.errors + [message])
  }

  /** The Pratt loop's condition at cursor `i`: the peek token is not `;` and binds tighter. */
  predicate Continues(ts: seq<Token>, i: nat, precedence: nat)
  {
    At(ts, i + 1).kind != Semicolon && precedence < Precedence(At(ts, i + 1).kind)
  }

  /** `parseExpression(precedence)`. */
  function ParseExpression(ts: seq<Token>, st: ParserState, precedence: nat): (r: (Expr, ParserState))
    requires st.cur <= |ts| && precedence >= LOWEST
    ensures st.cur <= r.1.cur <= |ts|
    ensures |st.errors| <= |r.1.errors|
    ensures At(ts, st.cur).kind in PrefixParseFns ==> !Continues(ts, r.1.cur, precedence)
    ensures At(ts, st.cur).kind !in PrefixParseFns ==>
      r == (Missing, Fail(st, NoPrefixMessage(At(ts, st.cur).kind)))
    decreases |ts| - st.cur, 2
  {
    var k := At(ts, st.cur).kind;
    if k !in PrefixParseFns then (Missing, Fail(st, NoPrefixMessage(k)))
    else
      var prefix := ApplyPrefix(ts, st);
      ParseInfixLoop(ts, prefix.1, precedence, prefix.0)
  }

  /** The prefix handler registered for the current token. The handlers this model does
      not define give an `Unparsed` node and consume only their own token. */
  function ApplyPrefix(ts: seq<Token>, st: ParserState): (r: (Expr, ParserState))
    requires st.cur <= |ts| && At(ts, st.cur).kind in PrefixParseFns
    ensures st.cur <= r.1.cur <= |ts|
    ensures |st.errors| <= |r.1.errors|
    decreases |ts| - st.cur, 1
  {
    var tok := At(ts, st.cur);
    match PrefixParseFns[tok.kind]
    case IdentifierFn => (IdentifierExpr(Identifier(tok, tok.literal)), st)
    case IntegerLiteralFn =>
      (match ParseInt0(tok.literal)
       case Some(v) => (IntegerLiteral(tok, v), st)
       case None => (Missing, Fail(st, IntegerErrorMessage(tok.literal))))
    case BooleanFn => (BooleanLiteral(tok, tok.kind == True), st)
    case PrefixExpressionFn =>
      var right := ParseExpression(ts, Advance(st), PREFIX);
      (PrefixExpression(tok, tok.literal, right.0), right.1)
    case _ => (Unparsed(tok), st)
  }

  /** The Pratt loop: while the peek token is not `;` and binds tighter than
      `precedence`, move onto it and let the infix handler extend `left`. */
  function ParseInfixLoop(ts: seq<Token>, st: ParserState, precedence: nat, left: Expr): (r: (Expr, ParserState))
    requires st.cur <= |ts| && precedence >= LOWEST
    ensures st.cur <= r.1.cur <= |ts|
    ensures |st.errors| <= |r.1.errors|
    ensures !Continues(ts, r.1.cur, precedence)
    ensures !Continues(ts, st.cur, precedence) ==> r == (left, st)
    decreases |ts| - st.cur, 0
  {
    if !Continues(ts, st.cur, precedence) then (left, st)
    else
      var step := ParseInfix(ts, Advance(st), left);
      ParseInfixLoop(ts, step.1, precedence, step.0)
  }

  /** `parseInfixExpression(left)`, with the operator as the current token. */
  function ParseInfix(ts: seq<Token>, st: ParserState, left: Expr): (r: (Expr, ParserState))
    requires st.cur < |ts|
    ensures st.cur < r.1.cur <= |ts|
    ensures |st.errors| <= |r.1.errors|
    decreases |ts| - st.cur, 3
  {
    var tok := At(ts, st.cur);
    var right := ParseExpression(ts, Advance(st), Precedence(tok.kind));
    (InfixExpression(tok, left, tok.literal, right.0), right.1)
  }

  // ---------------------------------------------------------------------
  // The shape of a parsed expression
  // ---------------------------------------------------------------------

  /** How tightly an expression's top operator binds: an infix operator's precedence,
      CALL for a leaf or a prefix expression. */
  function TopPrecedence(e: Expr): nat
  {
    if e.InfixExpression? then Precedence(e.token.kind) else CALL
  }

  /** Operator nesting as precedence climbing produces it: a prefix operator's operand is
      not an infix expression; an infix operator's left operand binds at least as tightly
      as the operator (equal levels nest to the left) and its right operand strictly more
      tightly. */
  predicate WellNested(e: Expr)
  {
    match e
    case PrefixExpression(_, _, right) => WellNested(right) && TopPrecedence(right) > PREFIX
    case InfixExpression(tok, left, _, right) =>
      && WellNested(left) && WellNested(right)
      && TopPrecedence(left) >= Precedence(tok.kind)
      && TopPrecedence(right) > Precedence(tok.kind)
    case _ => true
  }

  /** The tokens of a tree the Pratt parser builds, in source order. */
  function Yield(e: Expr): seq<Token>
  {
    match e
    case Missing => []
    case IdentifierExpr(id) => [id.token]
    case PrefixExpression(tok, _, right) => [tok] + Yield(right)
    case InfixExpression(tok, left, _, right) => Yield(left) + [tok] + Yield(right)
    case _ => [e.token]
  }

  /** `e` is properly nested and spells out exactly the tokens from `base` to `cur`,
      none of which is a `;`. */
  predicate Spells(ts: seq<Token>, base: nat, e: Expr, cur: nat)
  {
    && base <= cur < |ts|
    && WellNested(e)
    && Yield(e) == ts[base..cur + 1]
    && forall k | base <= k <= cur :: ts[k].kind != Semicolon
  }

  /** An expression parsed without new errors is properly nested, binds tighter than the
      level it was parsed at, and spells out exactly the tokens it consumed, none of them
      a `;`. */
  lemma {:induction false} ExpressionShape(ts: seq<Token>, st: ParserState, precedence: nat)
    requires st.cur <= |ts| && LOWEST <= precedence <= PREFIX
    ensures var r := ParseExpression(ts, st, precedence);
      |r.1.errors| == |st.errors| ==>
        && Spells(ts, st.cur, r.0, r.1.cur) && TopPrecedence(r.0) > precedence
        && !Continues(ts, r.1.cur, precedence)
    decreases |ts| - st.cur, 3
  {
    if At(ts, st.cur).kind in PrefixParseFns {
      var q := ApplyPrefix(ts, st);
      PrefixShape(ts, st);
      if |q.1.errors| == |st.errors| {
        LoopShape(ts, q.1, precedence, q.0, st.cur);
      }
    }
  }

  lemma {:induction false} PrefixShape(ts: seq<Token>, st: ParserState)
    requires st.cur <= |ts| && At(ts, st.cur).kind in PrefixParseFns
    ensures var r := ApplyPrefix(ts, st);
      |r.1.errors| == |st.errors| ==> Spells(ts, st.cur, r.0, r.1.cur) && TopPrecedence(r.0) == CALL
    decreases |ts| - st.cur, 2
  {
    var tok := ts[st.cur];
    var r := ApplyPrefix(ts, st);
    if PrefixParseFns[tok.kind] == PrefixExpressionFn {
      var q := ParseExpression(ts, Advance(st), PREFIX);
      assert r == (PrefixExpression(tok, tok.literal, q.0), q.1);
      ExpressionShape(ts, Advance(st), PREFIX);
      if |q.1.errors| == |st.errors| {
        PrefixJoin(ts, st.cur, q.1.cur, q.0);
      }
    } else {
      LeafShape(ts, st);
    }
  }

  /** The handlers other than the prefix operators consume one token and build a leaf. */
  lemma LeafShape(ts: seq<Token>, st: ParserState)
    requires st.cur <= |ts| && At(ts, st.cur).kind in PrefixParseFns
    requires PrefixParseFns[At(ts, st.cur).kind] != PrefixExpressionFn
    ensures var r := ApplyPrefix(ts, st);
      |r.1.errors| == |st.errors| ==> Spells(ts, st.cur, r.0, r.1.cur) && TopPrecedence(r.0) == CALL
  {
    var tok := ts[st.cur];
    var r := ApplyPrefix(ts, st);
    if |r.1.errors| == |st.errors| {
      assert r.1.cur == st.cur && Yield(r.0) == [tok];
      assert ts[st.cur..st.cur + 1] == [tok];
    }
  }

  lemma {:induction false} LoopShape(ts: seq<Token>, st: ParserState, precedence: nat, left: Expr, base: nat)
    requires LOWEST <= precedence <= PREFIX
    requires Spells(ts, base, left, st.cur) && TopPrecedence(left) > precedence
    requires !Continues(ts, st.cur, TopPrecedence(left))
    ensures var r := ParseInfixLoop(ts, st, precedence, left);
      |r.1.errors| == |st.errors| ==>
        && Spells(ts, base, r.0, r.1.cur) && TopPrecedence(r.0) > precedence
        && !Continues(ts, r.1.cur, precedence)
    decreases |ts| - st.cur, 1
  {
    var r := ParseInfixLoop(ts, st, precedence, left);
    if |r.1.errors| == |st.errors| && Continues(ts, st.cur, precedence) {
      var op := ts[st.cur + 1];
      var p := Precedence(op.kind);
      assert At(ts, st.cur + 1) == op && op.kind != Semicolon && precedence < p <= TopPrecedence(left);
      var st1 := Advance(Advance(st));
      var q := ParseExpression(ts, st1, p);
      var e := InfixExpression(op, left, op.literal, q.0);
      assert ParseInfix(ts, Advance(st), left) == (e, q.1);
      assert r == ParseInfixLoop(ts, q.1, precedence, e);
      ExpressionShape(ts, st1, p);
      InfixJoin(ts, base, st.cur, st.cur + 1, st1.cur, q.1.cur, left, q.0);
      LoopShape(ts, q.1, precedence, e, base);
    }
  }

  lemma PrefixJoin(ts: seq<Token>, i: nat, j: nat, right: Expr)
    requires i < |ts| && ts[i].kind != Semicolon
    requires Spells(ts, i + 1, right, j) && TopPrecedence(right) > PREFIX
    ensures Spells(ts, i, PrefixExpression(ts[i], ts[i].literal, right), j)
  {
    assert ts[i..j + 1] == [ts[i]] + ts[i + 1..j + 1];
  }

  /** `left op right` spells out the tokens of `left`, the operator and those of `right`. */
  lemma InfixJoin(ts: seq<Token>, base: nat, last: nat, op: nat, first: nat, j: nat, left: Expr, right: Expr)
    requires op == last + 1 && first == op + 1
    requires Spells(ts, base, left, last)
    requires Spells(ts, first, right, j)
    requires ts[op].kind != Semicolon
    requires TopPrecedence(left) >= Precedence(ts[op].kind)
    requires TopPrecedence(right) > Precedence(ts[op].kind)
    ensures Spells(ts, base, InfixExpression(ts[op], left, ts[op].literal, right), j)
  {
    assert ts[base..j + 1] == ts[base..last + 1] + [ts[op]] + ts[first..j + 1];
  }

  /** The expression parsers only ever append to the error list. */
  lemma {:induction false} ExpressionKeepsErrors(ts: seq<Token>, st: ParserState, precedence: nat)
    requires st.cur <= |ts| && precedence >= LOWEST
    ensures st.errors <= ParseExpression(ts, st, precedence).1.errors
    decreases |ts| - st.cur, 3
  {
    if At(ts, st.cur).kind in PrefixParseFns {
      var q := ApplyPrefix(ts, st);
      PrefixKeepsErrors(ts, st);
      LoopKeepsErrors(ts, q.1, precedence, q.0);
    }
  }

  lemma {:induction false} PrefixKeepsErrors(ts: seq<Token>, st: ParserState)
    requires st.cur <= |ts| && At(ts, st.cur).kind in PrefixParseFns
    ensures st.errors <= ApplyPrefix(ts, st).1.errors
    decreases |ts| - st.cur, 2
  {
    if PrefixParseFns[At(ts, st.cur).kind] == PrefixExpressionFn {
      ExpressionKeepsErrors(ts, Advance(st), PREFIX);
    }
  }

  lemma {:induction false} LoopKeepsErrors(ts: seq<Token>, st: ParserState, precedence: nat, left: Expr)
    requires st.cur <= |ts| && precedence >= LOWEST
    ensures st.errors <= ParseInfixLoop(ts, st, precedence, left).1.errors
    decreases |ts| - st.cur, 1
  {
    if Continues(ts, st.cur, precedence) {
      var step := ParseInfix(ts, Advance(st), left);
      InfixKeepsErrors(ts, Advance(st), left);
      LoopKeepsErrors(ts, step.1, precedence, step.0);
    }
  }

  lemma {:induction false} InfixKeepsErrors(ts: seq<Token>, st: ParserState, left: Expr)
    requires st.cur < |ts|
    ensures st.errors <= ParseInfix(ts, st, left).1.errors
    decreases |ts| - st.cur, 4
  {
    ExpressionKeepsErrors(ts, Advance(st), Precedence(At(ts, st.cur).kind));
  }

  // ---------------------------------------------------------------------
  // Statements
  // ---------------------------------------------------------------------

  /** `expectPeek(t)`: move on exactly when the peek token has kind `t`, otherwise record
      one error and stay. */
  function ExpectPeek(ts: seq<Token>, st: ParserState, t: TokenType): (r: (bool, ParserState))
    ensures r.0 <==> At(ts, st.cur + 1).kind == t
    ensures r.0 ==> r.1 == Advance(st)
    ensures !r.0 ==> r.1 == Fail(st, PeekErrorMessage(t, At(ts, st.cur + 1).kind))
  {
    if At(ts, st.cur + 1).kind == t then (true, Advance(st))
    else (false, Fail(st, PeekErrorMessage(t, At(ts, st.cur + 1).kind)))
  }

  /** The first index from `i` on whose token is `;` or EOF. */
  function SkipToEnd(ts: seq<Token>, i: nat): (j: nat)
    requires i <= |ts|
    ensures i <= j <= |ts|
    ensures At(ts, j).kind == Semicolon || At(ts, j).kind == Eof
    ensures forall k | i <= k < j :: At(ts, k).kind != Semicolon && At(ts, k).kind != Eof
    decreases |ts| - i
  {
    if At(ts, i).kind == Semicolon || At(ts, i).kind == Eof then i else SkipToEnd(ts, i + 1)
  }

  /** The first index from `i` on whose token is `;`, if the sequence has one. */
  function NextSemicolon(ts: seq<Token>, i: nat): (r: Option<nat>)
    ensures r.Some? ==> i <= r.value < |ts| && ts[r.value].kind == Semicolon
    ensures r.Some? ==> forall k | i <= k < r.value :: ts[k].kind != Semicolon
    ensures r.None? ==> forall k | i <= k < |ts| :: ts[k].kind != Semicolon
    decreases |ts| - i
  {
    if i >= |ts| then None
    else if ts[i].kind == Semicolon then Some(i)
    else NextSemicolon(ts, i + 1)
  }

  /** `parseLetStatement`. */
  function ParseLetStatement(ts: seq<Token>, st: ParserState): (r: (Stmt, ParserState))
    requires st.cur <= |ts|
    ensures st.errors <= r.1.errors && st.cur <= r.1.cur <= |ts|
    ensures At(ts, st.cur + 1).kind != Ident ==>
      r == (NilLet, Fail(st, PeekErrorMessage(Ident, At(ts, st.cur + 1).kind)))
    ensures At(ts, st.cur + 1).kind == Ident && At(ts, st.cur + 2).kind != Assign ==>
      r == (NilLet, Fail(Advance(st), PeekErrorMessage(Assign, At(ts, st.cur + 2).kind)))
    ensures At(ts, st.cur + 1).kind == Ident && At(ts, st.cur + 2).kind == Assign ==>
      var value := ParseExpression(ts, Advance(Advance(Advance(st))), LOWEST);
      && r.0 == LetStatement(At(ts, st.cur), Identifier(At(ts, st.cur + 1), At(ts, st.cur + 1).literal), value.0)
      && r.0.name.TokenLiteral() == r.0.name.value
      && r.1 == value.1.(cur := SkipToEnd(ts, value.1.cur))
      && (At(ts, r.1.cur).kind == Semicolon || At(ts, r.1.cur).kind == Eof)
  {
    var named := ExpectPeek(ts, st, Ident);
    if !named.0 then (NilLet, named.1)
    else
      var st1 := named.1;
      var name := Identifier(At(ts, st1.cur), At(ts, st1.cur).literal);
      var assign := ExpectPeek(ts, st1, Assign);
      if !assign.0 then (NilLet, assign.1)
      else
        ExpressionKeepsErrors(ts, Advance(assign.1), LOWEST);
        var value := ParseExpression(ts, Advance(assign.1), LOWEST);
        (LetStatement(At(ts, st.cur), name, value.0), value.1.(cur := SkipToEnd(ts, value.1.cur)))
  }

  /** `parseReturnStatement`: skip to the next `;`; the returned expression is never
      parsed. With no `;` after the keyword the loop never ends. */
  function ParseReturnStatement(ts: seq<Token>, st: ParserState): (r: Parsed<Stmt>)
    ensures r.Hangs? <==> forall k | st.cur < k < |ts| :: ts[k].kind != Semicolon
    ensures r.Parsed? ==>
      && r.value == ReturnStatement(At(ts, st.cur), Missing)
      && r.st.errors == st.errors && st.cur < r.st.cur < |ts|
      && ts[r.st.cur].kind == Semicolon
      && forall k | st.cur < k < r.st.cur :: ts[k].kind != Semicolon
  {
    match NextSemicolon(ts, st.cur + 1)
    case None => Hangs
    case Some(j) => Parsed(ReturnStatement(At(ts, st.cur), Missing), st.(cur := j))
  }

  /** `parseExpressionStatement`: an expression at LOWEST precedence and an optional `;`. */
  function ParseExpressionStatement(ts: seq<Token>, st: ParserState): (r: (Stmt, ParserState))
    requires st.cur <= |ts|
    ensures st.errors <= r.1.errors && st.cur <= r.1.cur <= |ts|
    ensures var e := ParseExpression(ts, st, LOWEST);
      && r.0 == ExpressionStatement(At(ts, st.cur), e.0)
      && r.1.errors == e.1.errors
      && r.1.cur == (if At(ts, e.1.cur + 1).kind == Semicolon then e.1.cur + 1 else e.1.cur)
  {
    ExpressionKeepsErrors(ts, st, LOWEST);
    var e := ParseExpression(ts, st, LOWEST);
    (ExpressionStatement(At(ts, st.cur), e.0),
     if At(ts, e.1.cur + 1).kind == Semicolon then Advance(e.1) else e.1)
  }

  /** `parseStatement`: dispatch on the current token. */
  function ParseStatement(ts: seq<Token>, st: ParserState): (r: Parsed<Stmt>)
    requires st.cur <= |ts|
    ensures r.Parsed? ==> st.errors <= r.st.errors && st.cur <= r.st.cur <= |ts|
    ensures r.Hangs? ==> At(ts, st.cur).kind == Return
    ensures At(ts, st.cur).kind == Let ==> r.Parsed? && (r.value.LetStatement? || r.value.NilLet?)
    ensures At(ts, st.cur).kind == Return ==> r == ParseReturnStatement(ts, st)
    ensures At(ts, st.cur).kind != Let && At(ts, st.cur).kind != Return ==>
      r.Parsed? && r.value.ExpressionStatement?
  {
    var k := At(ts, st.cur).kind;
    if k == Let then var s := ParseLetStatement(ts, st); Parsed(s.0, s.1)
    else if k == Return then ParseReturnStatement(ts, st)
    else var s := ParseExpressionStatement(ts, st); Parsed(s.0, s.1)
  }

  /** The statements `ParseProgram`'s loop collects from cursor `st.cur` on: one per
      iteration, each followed by a move to the next token, until the current token is EOF. */
  function ParseStatements(ts: seq<Token>, st: ParserState): (r: Parsed<seq<Stmt>>)
    requires st.cur <= |ts| + 1
    ensures r.Parsed? ==> st.errors <= r.st.errors && At(ts, r.st.cur).kind == Eof
    ensures At(ts, st.cur).kind == Eof ==> r == Parsed([], st)
    ensures At(ts, st.cur).kind != Eof && r.Parsed? ==>
      && ParseStatement(ts, st).Parsed? && |r.value| > 0
      && r.value[0] == ParseStatement(ts, st).value
    decreases |ts| + 1 - st.cur
  {
    if At(ts, st.cur).kind == Eof then Parsed([], st)
    else
      match ParseStatement(ts, st)
      case Hangs => Hangs
      case Parsed(s, st1) => Prepend(s, ParseStatements(ts, Advance(st1)))
  }

  function Prepend(s: Stmt, r: Parsed<seq<Stmt>>): Parsed<seq<Stmt>>
  {
    match r
    case Hangs => Hangs
    case Parsed(rest, st) => Parsed([s] + rest, st)
  }

  /** `ParseProgram` on a parser just created: the cursor is on the first token and there
      are no errors yet. */
  function ParseProgram(ts: seq<Token>): (r: Parsed<Program>)
    ensures r.Parsed? ==> At(ts, r.st.cur).kind == Eof
    ensures At(ts, 0).kind == Eof ==> r == Parsed(Program([]), ParserState(0, []))
    ensures At(ts, 0).kind != Eof && r.Parsed? ==>
      && |r.value.statements| > 0 && ParseStatement(ts, ParserState(0, [])).Parsed?
      && r.value.statements[0] == ParseStatement(ts, ParserState(0, [])).value
  {
    match ParseStatements(ts, ParserState(0, []))
    case Hangs => Hangs
    case Parsed(stmts, st) => Parsed(Program(stmts), st)
  }

  /** An identifier the prefix handler builds names itself: its token literal is its
      value, the literal of the token under the cursor. */
  lemma IdentifierLiteral(ts: seq<Token>, st: ParserState)
    requires st.cur <= |ts| && At(ts, st.cur).kind == Ident
    ensures var e := ApplyPrefix(ts, st).0;
      && e.IdentifierExpr?
      && e.id.token == At(ts, st.cur)
      && e.id.TokenLiteral() == e.id.value == At(ts, st.cur).literal
  {
  }

  /** A parsed statement's token literal is the literal of the token it starts at. */
  lemma StatementLiteral(ts: seq<Token>, st: ParserState)
    requires st.cur <= |ts|
    ensures var r := ParseStatement(ts, st);
      r.Parsed? && !r.value.NilLet? ==> r.value.TokenLiteral() == At(ts, st.cur).literal
  {
  }

  /** A program's token literal is the literal of the first token of its input, and empty
      when the input starts with EOF (unless its first statement is a failed `let`, whose
      literal Go cannot read). */
  lemma ProgramLiteral(ts: seq<Token>)
    ensures var r := ParseProgram(ts);
      r.Parsed? && (|r.value.statements| > 0 ==> !r.value.statements[0].NilLet?) ==>
        r.value.TokenLiteral() == (if At(ts, 0).kind == Eof then "" else At(ts, 0).literal)
  {
    if At(ts, 0).kind != Eof {
      StatementLiteral(ts, ParserState(0, []));
    }
  }
}
