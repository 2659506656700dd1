/**
  Tokens of the Monkey-like language: the token kinds with the type strings
  the interpreter prints for them, the keyword table and keyword lookup.
 */
module Token {
  import opened Wrappers
  import opened GoLib

  /** The token kinds. Go represents a kind by a string; `Tag` gives that string. */
  datatype TokenType =
    | Eof | Illegal
    | Ident | Int | Str
    | Assign | Plus | Minus | Asterisk | Slash | Lt | Gt | Bang
    | Comma | Semicolon | LParen | RParen | LBrace | RBrace
    | Function | Let | If | Else | Return | True | False
    | Eq | NotEq | LtEq | GtEq

  /** The Go string constant of each kind; note that identifiers are tagged "INDENT". */
  function Tag(k: TokenType): Bytes
  {
    match k
    case Eof => "EOF"
    case Illegal => "ILLEGAL"
    case Ident => "INDENT"
    case Int => "INT"
    case Str => "STRING"
    case Assign => "="
    case Plus => "+"
    case Minus => "-"
    case Asterisk => "*"
    case Slash => "/"
    case Lt => "<"
    case Gt => ">"
    case Bang => "!"
    case Comma => ","
    case Semicolon => ";"
    case LParen => "("
    case RParen => ")"
    case LBrace => "{"
    case RBrace => "}"
    case Function => "FUNCTION"
    case Let => "LET"
    case If => "IF"
    case Else => "ELSE"
    case Return => "RETURN"
    case True => "TRUE"
    case False => "FALSE"
    case Eq => "=="
    case NotEq => "!="
    case LtEq => "<="
    case GtEq => ">="
  }

  /** The kind a type string denotes, if any. */
  function FromTag(s: Bytes): Option<TokenType>
  {
    if s == "EOF" then Some(Eof)
    else if s == "ILLEGAL" then Some(Illegal)
    else if s == "INDENT" then Some(Ident)
    else if s == "INT" then Some(Int)
    else if s == "STRING" then Some(Str)
    else if s == "=" then Some(Assign)
    else if s == "+" then Some(Plus)
    else if s == "-" then Some(Minus)
    else if s == "*" then Some(Asterisk)
    else if s == "/" then Some(Slash)
    else if s == "<" then Some(Lt)
    else if s == ">" then Some(Gt)
    else if s == "!" then Some(Bang)
    else if s == "," then Some(Comma)
    else if s == ";" then Some(Semicolon)
    else if s == "(" then Some(LParen)
    else if s == ")" then Some(RParen)
    else if s == "{" then Some(LBrace)
    else if s == "}" then Some(RBrace)
    else if s == "FUNCTION" then Some(Function)
    else if s == "LET" then Some(Let)
    else if s == "IF" then Some(If)
    else if s == "ELSE" then Some(Else)
    else if s == "RETURN" then Some(Return)
    else if s == "TRUE" then Some(True)
    else if s == "FALSE" then Some(False)
    else if s == "==" then Some(Eq)
    else if s == "!=" then Some(NotEq)
    else if s == "<=" then Some(LtEq)
    else if s == ">=" then Some(GtEq)
    else None
  }

  /** Every kind has its own type string: reading the tag back gives the kind. */
  lemma TagRoundTrip(k: TokenType)
    ensures FromTag(Tag(k)) == Some(k)
  {
    match k
    case Eof =>
    case Illegal =>
    case Ident =>
    case Int =>
    case Str =>
    case Assign =>
    case Plus =>
    case Minus =>
    case Asterisk =>
    case Slash =>
    case Lt =>
    case Gt =>
    case Bang =>
    case Comma =>
    case Semicolon =>
    case LParen =>
    case RParen =>
    case LBrace =>
    case RBrace =>
    case Function =>
    case Let =>
    case If =>
    case Else =>
    case Return =>
    case True =>
    case False =>
    case Eq =>
    case NotEq =>
    case LtEq =>
    case GtEq =>
  }

  /** Hence two kinds with the same type string are the same kind. */
  lemma TagInjective(a: TokenType, b: TokenType)
    ensures Tag(a) == Tag(b) ==> a == b
  {
    TagRoundTrip(a);
    TagRoundTrip(b);
  }

  /** A token: its kind and the source text it was read from. */
  datatype Token = Token(kind: TokenType, literal: Bytes)

  /** The reserved words and the kinds they denote. */
  const Keywords: map<Bytes, TokenType> :=
    map["func" := Function, "let" := Let, "true" := True, "false" := False,
        "if" := If, "else" := Else, "return" := Return]

  predicate IsKeyword(k: TokenType)
  {
    k in {Function, Let, True, False, If, Else, Return}
  }

  /** The reserved word of a keyword kind. */
  function Spelling(k: TokenType): (s: Bytes)
    requires IsKeyword(k)
    ensures s in Keywords && Keywords[s] == k
  {
    match k
    case Function => "func"
    case Let => "let"
    case True => "true"
    case False => "false"
    case If => "if"
    case Else => "else"
    case Return => "return"
  }

  /** `LookUpKeyword`: the keyword's kind for a reserved word, Ident for any other word. */
  function LookUpKeyword(ident: Bytes): (k: TokenType)
    ensures ident in Keywords <==> k != Ident
    ensures k != Ident ==> IsKeyword(k) && Spelling(k) == ident
    ensures k == Ident || IsKeyword(k)
  {
    if ident in Keywords then Keywords[ident] else Ident
  }

  /** Looking up the spelling of a keyword kind gives that kind back. */
  lemma LookUpSpelling(k: TokenType)
    requires IsKeyword(k)
    ensures LookUpKeyword(Spelling(k)) == k
  {
  }

  /** Reserved words are exactly the spellings of the keyword kinds. */
  lemma KeywordsAreSpellings(w: Bytes)
    ensures w in Keywords <==> exists k :: IsKeyword(k) && Spelling(k) == w
  {
    if w in Keywords {
      var k := Keywords[w];
      assert IsKeyword(k) && Spelling(k) == w;
    }
  }
}
