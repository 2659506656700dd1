/**
  The syntax tree. Program, Identifier, LetStatement and ReturnStatement follow
  their struct definitions; the other expression and statement variants are
  reconstructed from the fields the evaluator reads (Right, Left, Operator,
  Value, Statements, Condition, Consequence, Alternative, Parameters, Body,
  Function, Arguments).
 */
module Ast {
  import opened Wrappers
  import opened GoLib
  import opened Token

  /** An identifier: the IDENT token and the name. */
  datatype Identifier = Identifier(token: Token, value: Bytes)
  {
    function TokenLiteral(): Bytes { token.literal }
  }

  /** Expressions. `Missing` is the Go nil interface a failed parse leaves in an expression
      slot; `Unparsed` is what the handlers for `(`, `if` and `func` produce, whose bodies
      are not part of this model. */
  datatype Expr =
    | Missing
    | IdentifierExpr(id: Identifier)
    | IntegerLiteral(token: Token, intValue: Int64)
    | StringLiteral(token: Token, strValue: Bytes)
    | BooleanLiteral(token: Token, boolValue: bool)
    | PrefixExpression(token: Token, operator: Bytes, right: Expr)
    | InfixExpression(token: Token, left: Expr, operator: Bytes, right: Expr)
    | IfExpression(token: Token, condition: Expr, consequence: Block, alternative: Option<Block>)
    | FunctionLiteral(token: Token, parameters: seq<Identifier>, body: Block)
    | CallExpression(token: Token, callee: Expr, arguments: seq<Expr>)
    | Unparsed(token: Token)

  /** A block `{ ... }` of statements. */
  datatype Block = Block(token: Token, statements: seq<Stmt>)

  /** Statements. `NilLet` is the nil `*LetStatement` the let parser returns on an error: it
      is still appended to the program. */
  datatype Stmt =
    | LetStatement(token: Token, name: Identifier, value: Expr)
    | NilLet
    | ReturnStatement(token: Token, returnValue: Expr)
    | ExpressionStatement(token: Token, expression: Expr)
  {
    /** The literal of the statement's first token; a nil `*LetStatement` has none (Go
        dereferences nil and panics). */
    function TokenLiteral(): Bytes
      requires !NilLet?
    {
      token.literal
    }
  }

  datatype Program = Program(statements: seq<Stmt>)
  {
    /** The literal of the first statement's token, empty for an empty program. */
    function TokenLiteral(): Bytes
      requires |statements| > 0 ==> !statements[0].NilLet?
    {
      if |statements| > 0 then statements[0].TokenLiteral() else ""
    }
  }
}
