# khanhanh_lang interpreter core in Dafny

This project models the core of a tree-walking interpreter for a small Monkey-like
language. The language has `let`, `return`, `if`/`else`, functions and closures,
integers, booleans, strings and the operators `+ - * / == != < > <= >= !`. The core has three stages:

- **Lexer** (`lexer.dfy`, tokens in `token.dfy`). The pure function `Lexer.Scan(input, p)`
  is one `NextToken` call with the corrected `peekChar` (see Findings): the token read from
  current position `p`, and the position after it.
  The class `Lexer.Lexer` keeps the same fields the Go `Lexer` keeps (`position`,
  `readPosition`, `ch`). Its methods are proved to follow `Scan`.
  `Lexer.Tokenize` is the whole token stream. `Lexer.TokenizeIsStream` proves it is exactly
  what successive `NextToken` calls return.
- **Parser** (`parser_spec.dfy`, `parser.dfy`, `parser_props.dfy`). A Pratt parser with
  `peekPrecedence`/`curPrecedence`, prefix and infix handler tables, and an error list.
  - `ParserSpec` gives each parse function as a function of the token stream and a
    cursor with its error list.
  - The class `Parser.Parser` keeps `curToken`, `peekToken` and `errors`. Each method is
    proved to change that state exactly as the matching `ParserSpec` function says.
  - The properties are proved about the functions: precedence nesting, error
    accumulation, `let` and `return` statement shapes, and looping `return` statements.
- **Evaluator** (`evaluator.dfy` and the `evaluator_*.dfy` files, objects in `object.dfy`,
  environments in `tracker.dfy`).
  - Go's `Eval` is a family of mutually recursive functions, one per node kind. They
    run in tracker `env` of a heap of trackers.
  - A `Tracker` (a map plus a reference to the enclosing tracker) is a `Frame` in a
    sequence. It is named by its index, and its outer tracker always has a smaller index.
  - A function value keeps the index of the tracker it was created in. So a closure
    sees later `Set`s on that tracker, as the shared Go object does.
  - The class `Tracker.Arena` holds the frames. Its `NewTracker`, `NewEnclosedTracker`
    and `Set` update them in place.
  - The loops of `evalProgram`, `evalBlockStatement`, `evalExpressions`,
    `extendFunctionEnv` and the string `*` operator are methods in `EvaluatorLoops`.
    Each is proved equal to the recursive definition.

Conventions of the model:
- A Go string is `GoLib.Bytes`, a sequence of characters below 256.
- Integers are `GoLib.Int64`. The arithmetic wraps explicitly (`GoLib.Wrap`), and `/`
  truncates toward zero (`GoLib.Quo`).
- Go's nil `Object` is `Object.Value.Void`, and a nil expression left by a failed parse
  is `Ast.Expr.Missing`.
- An evaluation ends in one of four ways:
  - `Done(value, heap)`, a finished evaluation;
  - `Stop(Panic)`, a Go runtime panic: a method called on nil, a division by zero, an
    argument index out of range, or a nil `*LetStatement`;
  - `Stop(OutOfFuel)`: each call of `Eval` on a sub-node costs one unit of fuel, so that
    programs that call functions forever still have a value in the model;
  - `Stop(Unmodelled)`, for the nodes described next.
- Some prefix handlers are registered in `parser/parser.go` but their bodies are not
  part of this model: strings, `(`, `if` and `func`. They produce an `Unparsed` node,
  and that node evaluates to `Stop(Unmodelled)`.

Three points about the source:
- The token types `<=` and `>=` have neither a precedence nor an infix handler. So the
  Pratt loop never consumes them, and `1 <= 2` is not parsed as a comparison.
- `(` has no precedence entry. So the registered call handler is never reached
  (`ParserSpec.InfixHandlerCoversPrecedence`).
- The evaluator test expects `-true` to be nil. The code returns an error object
  (`EvaluatorOps.MinusTrue`).

The model follows the code.

## Model

| member | source | states |
|---|---|---|
| ParserSpec.IdentifierLiteral | ast/ast.go:25-30 | an identifier the parser builds has its token's literal as both its `TokenLiteral` and its value |
| ParserSpec.StatementLiteral | ast/ast.go:41-56 | a parsed `let`, `return` or expression statement's `TokenLiteral` is the literal of the token it starts at |
| ParserSpec.ProgramLiteral | ast/ast.go:33-39 | a parsed program's `TokenLiteral` is its first input token's literal, and empty when the input starts with EOF |
| Token.TagRoundTrip | token/token.go:6-47 | every token kind has its own type string: reading the string back gives the kind |
| Token.TagInjective | token/token.go:6-47 | two kinds with the same type string are the same kind |
| Token.Spelling | token/token.go:54-62 | each keyword kind has a reserved word that the keyword table maps back to that kind |
| Token.LookUpKeyword | token/token.go:66-71 | the result is IDENT exactly when the word is not in the table; otherwise it is the keyword kind that word spells |
| Token.LookUpSpelling | token/token.go:54-71 | looking up a keyword's reserved word gives that keyword |
| Token.KeywordsAreSpellings | token/token.go:54-62 | the reserved words are exactly the spellings of the seven keyword kinds |
| GoLib.Wrap | evaluator/evaluator.go:317-322 | int64 wrap-around: the result is congruent to the exact value modulo 2^64 and equal to it when it fits |
| GoLib.Quo | evaluator/evaluator.go:323-324 | Go's integer `/`: the remainder is smaller than the divisor in magnitude and has the sign of the dividend |
| GoLib.NatToDecimal | object/object.go:37 | a non-empty digit string without a leading zero |
| GoLib.DecimalRoundTrip | object/object.go:37 | the decimal digits of `n` read back as `n` |
| GoLib.Itoa | evaluator/evaluator.go:284 | a non-negative number prints as its digits, a negative one as `-` and the digits of its magnitude |
| GoLib.AtoiItoa | evaluator/evaluator.go:284-293 | `strconv.Atoi` reads back what `strconv.Itoa` writes, for every int64 |
| GoLib.ParseInt0 | parser/exprStatement.go:64 | only a non-empty digit string parses |
| GoLib.ParseInt0Itoa | parser/exprStatement.go:62-72 | the decimal text of a non-negative int64 parses back to it |
| GoLib.Repeat | evaluator/evaluator.go:297-301 | `n` copies of `s` have length `n * |s|`, and there are none when `n <= 0` |
| GoLib.EncodeRune | lexer/lexer.go:174-176 | `string(rune(c))` is one byte below 128 and two bytes from 128 on |
| GoLib.EncodeRuneRoundTrip | lexer/lexer.go:174-176 | decoding the UTF-8 text of a byte gives the byte back |
| Lexer.Punctuation | lexer/lexer.go:34-86 | a byte that is a token on its own has a kind whose type string is that byte |
| Lexer.ByteClassesDisjoint | lexer/lexer.go:115-123 | no letter is a digit, and no letter or digit is a space, quote, NUL, operator byte or one-byte token, so the order of `NextToken`'s branches hides none |
| Lexer.NewTokenLiteral | lexer/lexer.go:174-176 | `newToken` keeps the kind, an ASCII byte is its own literal, and every byte decodes back from the literal |
| Lexer.SkipWs | lexer/lexer.go:158-162 | the first non-blank position from `p`: every byte skipped is a blank and the byte reached is not |
| Lexer.IdentEnd | lexer/lexer.go:126-132 | the end of the run of letters from `p`: all skipped bytes are letters and the byte reached is not |
| Lexer.NumberEnd | lexer/lexer.go:135-142 | the end of the run of digits from `p` |
| Lexer.StringEnd | lexer/lexer.go:145-155 | the first closing quote or NUL from `p` on, never past the end of the input |
| Lexer.Scan | lexer/lexer.go:30-112 | one `NextToken` call always advances, stays within one past the end, and past the end returns EOF |
| Lexer.OperatorKind | lexer/lexer.go:34-73 | the operator's type string is its byte, or its byte followed by `=` |
| Lexer.ScanOperator | lexer/lexer.go:34-73 | an operator token's literal is exactly the one or two bytes consumed |
| Lexer.ScanString | lexer/lexer.go:90-92 | a STRING token whose literal is the bytes after the opening quote |
| Lexer.ScanWord | lexer/lexer.go:94-99 | the literal is the bytes consumed and the kind is `LookUpKeyword` of it |
| Lexer.ScanNumber | lexer/lexer.go:100-103 | an INT token whose literal is the bytes consumed |
| Lexer.ScanWellFormed | lexer/lexer.go:30-112 | every token has the expected literal: EOF has an empty one, ILLEGAL holds one unacceptable byte, IDENT is letters and not a keyword, INT is digits, STRING has no quote or NUL, and every other kind has its fixed text |
| Lexer.ScanConsumes | lexer/lexer.go:30-112 | after the blanks the literal is exactly the text consumed (between the quotes for a string, the one byte for ILLEGAL), and EOF comes exactly from NUL or the end |
| Lexer.OperatorLookahead | lexer/lexer.go:34-73 | `=`, `!`, `<`, `>` followed by `=` give one two-byte token; otherwise they give one one-byte token |
| Lexer.ScanIdentifier | lexer/lexer.go:94-99 | a word is the longest run of letters from its first byte, and it is a keyword exactly when the table says so |
| Lexer.ScanInteger | lexer/lexer.go:100-103 | a number is the longest run of digits, with no sign |
| Lexer.ScanStringLiteral | lexer/lexer.go:145-155 | a string is the bytes strictly between its quote and the next quote, NUL or end of input, with no escapes |
| Lexer.ScanIllegal | lexer/lexer.go:104-106 | any other byte is one ILLEGAL token holding that byte's UTF-8 text |
| Lexer.ScanSkipsWhitespace | lexer/lexer.go:158-162 | blanks before a token do not change it |
| Lexer.TokensFrom | lexer/lexer.go:30-112 | the stream from a position is non-empty and ends with EOF |
| Lexer.Tokenize | lexer/lexer.go:30-112 | the stream of a whole input is non-empty and ends with EOF |
| Lexer.StickyEof | lexer/lexer.go:19-27 | once past the end of the input the lexer stays there and returns EOF forever |
| Lexer.TokensFromIsStream | lexer/lexer.go:30-112 | the `n`-th `NextToken` call from a position returns the `n`-th token of the stream from it, and EOF after the stream's end |
| Lexer.TokenizeIsStream | lexer/lexer.go:12-16 | the `n`-th token returned by a lexer just created on an input is the `n`-th token of `Tokenize` |
| Lexer.ScanRender | lexer/lexer.go:30-112 | every token with source text of its own, followed by a blank, lexes back to itself and consumes exactly that text |
| Lexer.ScanRenderString | lexer/lexer.go:145-155 | a quoted string lexes back to its contents whatever follows it |
| Lexer.LessGreaterIsTwoTokens | lexer/lexer.go:58-73 | `<>` lexes as LT, GT, EOF |
| Lexer.PeekCharAsWritten | lexer/lexer.go:165-172 | `peekChar` as written panics exactly when `position <= len(input) <= readPosition` |
| Lexer.PeekCharAsWrittenFails | lexer/lexer.go:165-172 | on every byte where `NextToken` peeks, the written version panics exactly at the last byte and otherwise agrees with the corrected one |
| Lexer.TrailingAssignPanics | lexer/lexer.go:34-41 | on `x =` the written `peekChar` reads past the end, while the corrected lexer returns ASSIGN |
| Lexer.Lexer.New | lexer/lexer.go:12-16 | a lexer at position 0 whose current byte is the first one |
| Lexer.Lexer.ReadChar | lexer/lexer.go:19-27 | both positions move on by one, and the current byte is the byte there or NUL past the end |
| Lexer.Lexer.PeekChar | lexer/lexer.go:165-172 | corrected `peekChar`: the byte at `readPosition`, NUL past the end |
| Lexer.Lexer.SkipWhiteSpace | lexer/lexer.go:158-162 | the position moves to `SkipWs` of the old position |
| Lexer.Lexer.ReadIdentifier | lexer/lexer.go:126-132 | the position moves to the end of the letters, and the bytes passed are returned |
| Lexer.Lexer.ReadNumber | lexer/lexer.go:135-142 | the position moves to the end of the digits, and the bytes passed are returned |
| Lexer.Lexer.ReadString | lexer/lexer.go:145-155 | the position moves to the closing quote or NUL, and the bytes after the opening quote are returned |
| Lexer.Lexer.NextToken | lexer/lexer.go:30-112 | the token and the new position are what `Scan` gives for the old position |
| Object.TypeTagsDistinct | object/object.go:14-22 | two objects have the same type tag exactly when they are the same variant |
| Object.Type | object/object.go:38-92 | every object's type tag is one of the seven object type names |
| Object.InspectInteger | object/object.go:37 | an integer prints as its decimal text, which reads back as the integer and starts with `-` exactly when negative |
| Object.InspectScalars | object/object.go:42-82 | booleans print `true`/`false`, NIL prints `nil`, strings and errors print their text, and a return value prints as the value it wraps |
| Object.Unwrapped | object/object.go:73 | the value under all ReturnValue wrappers is not itself a ReturnValue, and it is printable when the wrapper is |
| Object.Names | object/object.go:96-99 | one rendering per parameter, in order |
| Object.InspectFunction | object/object.go:93-108 | the buffer holds `func(`, the parameters joined by `, `, `) {`, a newline, the body and `}` on a new line, which is `Inspect` of the function |
| Tracker.Chain | object/tracker.go:9-16 | the trackers `Get` visits start at the tracker itself and all exist |
| Tracker.LookupAlongChain | object/tracker.go:9-16 | `Get` fails exactly when no tracker on the chain binds the name; otherwise it returns the binding of the first tracker that has one |
| Tracker.Shadowing | object/tracker.go:9-16 | a name bound in the tracker itself hides every outer binding |
| Tracker.Fresh | object/tracker.go:22-25 | a new empty tracker with no outer tracker, in which every lookup fails; existing trackers are unchanged |
| Tracker.Enclosed | object/tracker.go:28-32 | a new empty tracker whose outer tracker is the given one; existing trackers are unchanged |
| Tracker.LookupExtend | object/tracker.go:22-32 | creating trackers does not change any lookup from an existing tracker |
| Tracker.EnclosedSeesOuter | object/tracker.go:28-32 | a new enclosed tracker first sees exactly what its outer tracker sees |
| Tracker.Bind | object/tracker.go:17-20 | `Set` returns the value, binds the name in that tracker only, and leaves every other tracker unchanged |
| Tracker.BindKeepsWellFormed | object/tracker.go:17-20 | `Set` keeps every outer link pointing to an earlier tracker |
| Tracker.LookupAfterBind | object/tracker.go:9-20 | after `Set(n, v)` a `Get(n)` from the same tracker gives `v`, and every other name looks up as before |
| Tracker.LookupUnaffected | object/tracker.go:17-20 | trackers created earlier do not see a binding made in a later one |
| Tracker.LookupInClosed | object/tracker.go:9-16 | a value found by `Get` refers only to existing trackers |
| Tracker.Arena.Get | object/tracker.go:9-16 | `Get` fails exactly when no tracker on the chain binds the name, and otherwise gives the binding of the first tracker that has one |
| Tracker.Arena.NewTracker | object/tracker.go:22-25 | appends the tracker `Fresh` describes and returns its index |
| Tracker.Arena.NewEnclosedTracker | object/tracker.go:28-32 | appends the tracker `Enclosed` describes and returns its index |
| Tracker.Arena.Set | object/tracker.go:17-20 | updates the frames in place as `Bind` describes and returns the value |
| Evaluator.NativeBool | evaluator/evaluator.go:18-23 | the shared boolean with the given value |
| Evaluator.IsErrorByTag | evaluator/evaluator.go:29-34 | the non-nil-and-tag-is-ERROR test is true exactly for Error objects |
| Evaluator.TruthyValues | evaluator/evaluator.go:222-233 | only NIL and FALSE are falsy: zero, the empty string and nil are truthy |
| Evaluator.UnwrapOnce | evaluator/evaluator.go:168-173 | unwrapping removes exactly one ReturnValue wrapper and leaves any other object as it is |
| Evaluator.EvalBangPrefix | evaluator/evaluator.go:196-207 | `!` always yields a boolean, whatever the operand, nil included |
| Evaluator.EvalMinusPrefix | evaluator/evaluator.go:188-194 | unary `-` yields a plain object (an integer, boolean, NIL, string or error, never a return value or a function), or panics |
| Evaluator.EvalPrefixExpression | evaluator/evaluator.go:177-186 | a prefix operator yields a plain value or panics |
| Evaluator.EvalIntOperator | evaluator/evaluator.go:313-340 | an integer operator yields a plain value or panics |
| Evaluator.EvalBoolOperator | evaluator/evaluator.go:260-272 | a boolean operator yields a plain value |
| Evaluator.EvalStringOperator | evaluator/evaluator.go:275-310 | a string operator yields a plain value |
| Evaluator.EvalInfixExpression | evaluator/evaluator.go:245-257 | an infix operator yields a plain value or panics |
| Evaluator.EvalIdentifier | evaluator/evaluator.go:235-241 | the value of an identifier refers only to existing trackers |
| Evaluator.BindParameters | evaluator/evaluator.go:162-164 | binding the parameters changes only the new tracker, keeps its outer link, and keeps the heap closed |
| Evaluator.ExtendFunctionEnv | evaluator/evaluator.go:160-166 | one new tracker is appended, enclosed by the function's own tracker, and the existing trackers are unchanged |
| Evaluator.EvalExpr | evaluator/evaluator.go:36-100 | a finished evaluation leaves the heap closed (every function value bound anywhere points to an existing tracker), never removes a tracker, and yields a value that points only to existing trackers |
| Evaluator.EvalPrefixNode | evaluator/evaluator.go:42-47 | the same heap invariant for the prefix case |
| Evaluator.EvalInfixNode | evaluator/evaluator.go:48-57 | the same heap invariant for the infix case |
| Evaluator.EvalCallNode | evaluator/evaluator.go:87-96 | the same heap invariant for the call case |
| Evaluator.EvalIfExpression | evaluator/evaluator.go:209-221 | the same heap invariant for `if` |
| Evaluator.EvalExpressions | evaluator/evaluator.go:138-148 | the same heap invariant for an argument list |
| Evaluator.ApplyFunction | evaluator/evaluator.go:150-158 | the same heap invariant for a call |
| Evaluator.EvalStmt | evaluator/evaluator.go:68-80 | the same heap invariant for a statement |
| Evaluator.EvalBlock | evaluator/evaluator.go:64-65 | the same heap invariant for a block |
| Evaluator.EvalBlockStatements | evaluator/evaluator.go:119-134 | the same heap invariant for a block's loop |
| Evaluator.EvalProgram | evaluator/evaluator.go:38-39 | the same heap invariant for a program |
| Evaluator.EvalProgramStatements | evaluator/evaluator.go:103-116 | the same heap invariant for a program's loop |
| EvaluatorOps.BangIsNegatedTruthiness | evaluator/evaluator.go:196-233 | only NIL and FALSE are falsy; `!v` is the negated truthiness, and `!!v` the truthiness |
| EvaluatorOps.BangOfInteger | evaluator/evaluator.go:196-207 | `!n` is false and `!!n` is true for every integer, zero included |
| EvaluatorOps.DoubleMinus | evaluator/evaluator.go:188-194 | `--n` is `n`; `-n` is the exact negation except for the most negative int64, which negates to itself |
| EvaluatorOps.PrefixOutcomes | evaluator/evaluator.go:177-194 | a prefix operator panics exactly on a nil operand when it is not `!`; `-` on a non-integer and an unknown operator give the error messages |
| EvaluatorOps.MinusTrue | evaluator/evaluator.go:188-194 | `-true` is the error `[Error]: Unknown operator -BOOLEAN` |
| EvaluatorOps.WrapCongruent | evaluator/evaluator.go:317-322 | values congruent modulo 2^64 wrap to the same int64 |
| EvaluatorOps.IntArithmetic | evaluator/evaluator.go:317-322 | `+`, `-`, `*` give the exact result wrapped into int64 |
| EvaluatorOps.IntDivision | evaluator/evaluator.go:323-324 | `/` panics exactly on a zero divisor; otherwise it truncates toward zero, and `MIN64 / -1` is `MIN64` |
| EvaluatorOps.QuoInRange | evaluator/evaluator.go:323-324 | a truncated int64 quotient fits in int64 except `MIN64 / -1` |
| EvaluatorOps.DivisionTruncates | evaluator/evaluator.go:323-324 | `-7 / 2` is `-3` |
| EvaluatorOps.IntComparisons | evaluator/evaluator.go:325-336 | each of `==`, `!=`, `<`, `>`, `<=`, `>=` is that comparison of the two integers; `1 < 2` is TRUE and `1 > 2` is FALSE |
| EvaluatorOps.IntOperatorLaws | evaluator/evaluator.go:313-336 | `+` and `*` commute, `<`/`>` and `<=`/`>=` are mirror images, `<=` is `!(>)`, `!=` is `!(==)`, and `==` is true exactly for equal integers |
| EvaluatorOps.MinusIsPlusNegation | evaluator/evaluator.go:317-320 | `l - r` is `l + (-r)` in int64 |
| EvaluatorOps.IntUnknownOperator | evaluator/evaluator.go:337-338 | any other operator on integers is the error naming it |
| EvaluatorOps.InfixPanics | evaluator/evaluator.go:245-257 | an infix operation panics exactly for a nil left operand, a nil right operand when the left is not a string, or an integer division by zero |
| EvaluatorOps.InfixDispatch | evaluator/evaluator.go:245-257 | two integers use the integer table, two booleans the boolean table, a string on the left the string table, and mismatched types give the Mismatch error |
| EvaluatorOps.BoolOperators | evaluator/evaluator.go:260-272 | booleans compare with `==` and `!=`, `!=` is the negation of `==`, and every other operator is an error |
| EvaluatorOps.StringRightOperandIgnored | evaluator/evaluator.go:278-287 | a right operand that is neither a string nor an integer makes every string operator yield NIL |
| EvaluatorOps.StringPlusString | evaluator/evaluator.go:290-291 | `s + t` on two strings is their concatenation; `"hello" + "world"` is `"helloworld"` |
| EvaluatorOps.StringIntegerOperand | evaluator/evaluator.go:278-287 | an integer right operand acts as its decimal text for every string operator, so `s == n` compares `s` with the text of `n` |
| EvaluatorOps.StringPlusInteger | evaluator/evaluator.go:283-291 | `s + n` appends the decimal text of `n`, which reads back as `n` |
| EvaluatorOps.StringTimesInteger | evaluator/evaluator.go:292-301 | `s * n` is `n` copies of `s`, empty for `n <= 0` |
| EvaluatorOps.StringTimesText | evaluator/evaluator.go:292-296 | `s * t` is NIL when `t` is not decimal text, and otherwise the copies |
| EvaluatorOps.HelloTimesTwo | evaluator/evaluator.go:292-301 | `"hello" * 2` is `"hellohello"` |
| EvaluatorOps.StringComparison | evaluator/evaluator.go:302-308 | string `==` compares the texts, `!=` is its negation, and an unknown operator is an error |
| EvaluatorLoops.EvalProgram | evaluator/evaluator.go:103-116 | the loop's result is the recursive `EvalProgramStatements` |
| EvaluatorLoops.EvalBlockStatement | evaluator/evaluator.go:119-134 | the loop's result, with its nil check and tag tests, is the recursive `EvalBlockStatements` |
| EvaluatorLoops.EvalExpressions | evaluator/evaluator.go:138-148 | the loop's result is the recursive `EvalExpressions` |
| EvaluatorLoops.RepeatString | evaluator/evaluator.go:297-301 | the buffer loop writes `Repeat(s, n)` |
| EvaluatorLoops.ExtendFunctionEnv | evaluator/evaluator.go:160-166 | creating the enclosed tracker and calling `Set` once per parameter gives the arena `ExtendFunctionEnv` describes |
| EvaluatorProps.OperandErrorsShortCircuit | evaluator/evaluator.go:36-100 | an error from a prefix operand, either infix operand, the callee or an `if` condition is the value of the whole expression |
| EvaluatorProps.StatementErrorsShortCircuit | evaluator/evaluator.go:68-80 | an error from the value of a `return` or a `let` is the statement's value |
| EvaluatorProps.ArgumentsOrErrors | evaluator/evaluator.go:138-148 | the arguments give one error-free value per expression, in order, or a list holding only the first error |
| EvaluatorProps.StopsAtReturnOrError | evaluator/evaluator.go:103-134 | a block stops at a return or error and keeps it wrapped; a program stops there and unwraps the return |
| EvaluatorProps.ContinuesAfterValue | evaluator/evaluator.go:103-134 | after an ordinary value both loops go on with the next statement |
| EvaluatorProps.ParsedReturnYieldsNil | evaluator/evaluator.go:68-74 | a return statement with no parsed value returns nil wrapped, so a program starting with one evaluates to nil |
| EvaluatorProps.IfChoosesBranch | evaluator/evaluator.go:209-233 | `if` runs the consequence exactly when the condition is truthy, otherwise the alternative, or yields NIL |
| EvaluatorProps.LetBindsInCurrentTracker | evaluator/evaluator.go:75-80 | `let` yields nil, binds the value in the current tracker only, and leaves every other name and tracker as it was |
| EvaluatorProps.IdentifierLookup | evaluator/evaluator.go:235-241 | an identifier is its innermost binding, or the not-found error exactly when no tracker on the chain binds it |
| EvaluatorProps.LetThenRead | evaluator/evaluator.go:75-82 | `let x = e; x` yields the value of `e` |
| EvaluatorProps.BindParametersStore | evaluator/evaluator.go:160-166 | each parameter name is bound to the argument at its position, and every other name keeps its binding |
| EvaluatorProps.ParametersBound | evaluator/evaluator.go:160-166 | in the call's tracker each parameter looks up to its argument, and every other name looks up as in the function's own tracker |
| EvaluatorProps.CallOutcomes | evaluator/evaluator.go:150-158 | calling a non-function is the `not a function` error, calling nil panics, and too few arguments panic; otherwise the body runs in a new tracker enclosed by the function's own and its value is unwrapped once |
| EvaluatorProps.IdentityFunction | evaluator/evaluator.go:150-173 | `fn(x) { x }` applied to `v` returns `v`, unwrapped once |
| EvaluatorFuel.ExprFuel | evaluator/evaluator.go:36-100 | an expression that finishes with some fuel finishes the same way with any more |
| EvaluatorFuel.PrefixNodeFuel | evaluator/evaluator.go:42-47 | the same for the prefix case |
| EvaluatorFuel.InfixNodeFuel | evaluator/evaluator.go:48-57 | the same for the infix case |
| EvaluatorFuel.CallNodeFuel | evaluator/evaluator.go:87-96 | the same for the call case |
| EvaluatorFuel.IfFuel | evaluator/evaluator.go:209-221 | the same for `if` |
| EvaluatorFuel.ExpressionsFuel | evaluator/evaluator.go:138-148 | the same for argument lists |
| EvaluatorFuel.ApplyFuel | evaluator/evaluator.go:150-158 | the same for function application |
| EvaluatorFuel.StmtFuel | evaluator/evaluator.go:68-80 | the same for statements |
| EvaluatorFuel.BlockFuel | evaluator/evaluator.go:119-134 | the same for blocks |
| EvaluatorFuel.BlockStatementsFuel | evaluator/evaluator.go:119-134 | the same for a block's loop |
| EvaluatorFuel.ProgramStatementsFuel | evaluator/evaluator.go:103-116 | the same for a program's loop |
| EvaluatorFuel.ProgramFuel | evaluator/evaluator.go:103-116 | a program that finishes with some fuel finishes the same way with any more |
| EvaluatorExamples.QuotientThenProduct | evaluator/evaluator_test.go:44 | `50 / 2 * 2 + 10` is 60 |
| EvaluatorExamples.Quotient | evaluator/evaluator.go:323-324 | `50 / 2` is 25 |
| EvaluatorExamples.NegatedOperand | evaluator/evaluator_test.go:39 | `-50 + 100 - 50` is 0 |
| EvaluatorExamples.InnerIf | evaluator/evaluator.go:119-134 | `if (true) { return 10; }` yields the return value 10, still wrapped |
| EvaluatorExamples.OuterBlock | evaluator/evaluator.go:119-134 | a block stops at the wrapped return value of an inner block, before its own `return 1` |
| EvaluatorExamples.NestedReturn | evaluator/evaluator.go:119-134 | an inner `return` ends both blocks, and the program unwraps it |
| ParserSpec.Precedence | parser/exprStatement.go:37-50 | every precedence is between LOWEST and PRODUCT |
| ParserSpec.PrecedenceOrder | parser/exprStatement.go:13-22 | the levels are strictly ordered from LOWEST to CALL |
| ParserSpec.PrecedenceTable | parser/exprStatement.go:25-34 | `==`/`!=` are EQUAL, `<`/`>` LESSGREATER, `+`/`-` SUM, `*`/`/` PRODUCT, and everything else, including `(`, `<=`, `>=`, is LOWEST |
| ParserSpec.HandlerKinds | parser/parser.go:49-71 | the prefix table holds exactly IDENT, INT, STRING, `!`, `-`, TRUE, FALSE, `(`, IF and FUNCTION; the infix table exactly `+ - / * == != < >` and `(` |
| ParserSpec.InfixHandlerCoversPrecedence | parser/exprStatement.go:143-150 | a kind binds tighter than LOWEST exactly when it has the binary-operator handler, so the loop's nil-handler exit and the call handler are never reached |
| ParserSpec.ParseExpression | parser/exprStatement.go:135-154 | the cursor only moves forward and errors only grow; with a prefix handler, the loop condition fails at the end; without one, the error is recorded and nil is returned |
| ParserSpec.ApplyPrefix | parser/exprStatement.go:136-141 | a prefix handler moves the cursor forward and adds errors only |
| ParserSpec.ParseInfixLoop | parser/exprStatement.go:143-151 | the loop ends where its condition fails, and returns its input unchanged when the condition fails at once |
| ParserSpec.ParseInfix | parser/exprStatement.go:101-112 | `parseInfixExpression` moves past the operator and never loses an error |
| ParserSpec.ExpressionShape | parser/exprStatement.go:131-154 | an expression parsed without new errors is nested by precedence, binds tighter than the level it was parsed at, and spells out exactly the tokens consumed, none of them `;` |
| ParserSpec.PrefixShape | parser/exprStatement.go:89-97 | whatever a prefix handler builds without new errors spells exactly the tokens it consumed and binds tightest |
| ParserSpec.LeafShape | parser/exprStatement.go:57-77 | an identifier, integer or boolean parsed without error spells exactly its one token and binds tightest |
| ParserSpec.LoopShape | parser/exprStatement.go:143-151 | starting from a well-formed left operand, the loop builds, without new errors, a tree that spells exactly the tokens consumed, binds tighter than the level, and stops where the loop condition fails |
| ParserSpec.ExpressionKeepsErrors | parser/exprStatement.go:135-154 | expression parsing only appends to the error list |
| ParserSpec.ExpectPeek | parser/parser.go:114-131 | moves on exactly when the peek token has the expected kind; otherwise it records the peek error and stays |
| ParserSpec.SkipToEnd | parser/letStatement.go:22-24 | the first `;` or EOF from the cursor on |
| ParserSpec.NextSemicolon | parser/returnStatement.go:11-13 | the first `;` from the cursor on, or none |
| ParserSpec.ParseLetStatement | parser/letStatement.go:8-27 | a missing name or `=` returns nil with the peek error; otherwise the statement holds the LET token, the name and the value, and the cursor is at the next `;` or EOF |
| ParserSpec.ParseReturnStatement | parser/returnStatement.go:8-16 | it loops forever exactly when no `;` follows; otherwise it stops at the first `;` with no value and no new error |
| ParserSpec.ParseExpressionStatement | parser/exprStatement.go:119-129 | an expression at LOWEST, followed by a step past the peek token when that token is `;` |
| ParserSpec.ParseStatement | parser/parser.go:92-101 | `let` gives a let or nil statement, `return` the return parser, and anything else an expression statement; only `return` can loop |
| ParserSpec.ParseStatements | parser/parser.go:79-90 | the loop ends at EOF and keeps earlier errors; at EOF it collects nothing, and otherwise its first statement is the one `parseStatement` gives |
| ParserSpec.ParseProgram | parser/parser.go:79-90 | parsing stops only at EOF; an input starting with EOF is the empty program, and otherwise the first statement is the one `parseStatement` gives at the start |
| Parser.Parser.New | parser/parser.go:42-74 | the current and peek tokens are the first two tokens of a new lexer, and there are no errors |
| Parser.Parser.NextToken | parser/parser.go:26-29 | the peek token becomes current, and the next token of the stream becomes the peek token |
| Parser.Parser.Errors | parser/parser.go:124-126 | the error list |
| Parser.Parser.PeekError | parser/parser.go:128-131 | appends the `expected next token` message and nothing else changes |
| Parser.Parser.ExpectPeek | parser/parser.go:114-123 | changes the state as `ParserSpec.ExpectPeek` says |
| Parser.Parser.PeekPrecedence | parser/exprStatement.go:37-42 | the table precedence of the peek token, LOWEST when none |
| Parser.Parser.CurPrecedence | parser/exprStatement.go:45-50 | the table precedence of the current token, LOWEST when none |
| Parser.Parser.ParseIdentifier | parser/exprStatement.go:57-59 | an identifier named by the current token's literal |
| Parser.Parser.ParseIntegerLiteral | parser/exprStatement.go:62-73 | the literal's value, or nil with the `could not parse` error |
| Parser.Parser.ParseBoolean | parser/exprStatement.go:75-77 | a boolean, true exactly for TRUE |
| Parser.Parser.NoPrefixParseFnError | parser/exprStatement.go:83-86 | appends the `no prefix parse function` message and nothing else changes |
| Parser.Parser.ParsePrefixExpression | parser/exprStatement.go:89-97 | changes the state as `ParserSpec.ApplyPrefix` says for `!` and `-` |
| Parser.Parser.ApplyPrefix | parser/exprStatement.go:136-141 | the registered handler's result and state, as `ParserSpec.ApplyPrefix` says |
| Parser.Parser.ParseInfixExpression | parser/exprStatement.go:101-112 | changes the state as `ParserSpec.ParseInfix` says |
| Parser.Parser.ParseExpression | parser/exprStatement.go:135-154 | the Pratt loop's result and state are `ParserSpec.ParseExpression` |
| Parser.Parser.ParseExpressionStatement | parser/exprStatement.go:119-129 | changes the state as `ParserSpec.ParseExpressionStatement` says |
| Parser.Parser.ParseLetStatement | parser/letStatement.go:8-27 | changes the state as `ParserSpec.ParseLetStatement` says |
| Parser.Parser.ParseReturnStatement | parser/returnStatement.go:8-16 | changes the state as `ParserSpec.ParseReturnStatement` says, whenever that loop ends |
| Parser.Parser.ParseStatement | parser/parser.go:92-101 | changes the state as `ParserSpec.ParseStatement` says |
| Parser.Parser.ParseProgram | parser/parser.go:79-90 | the statements collected are those of `ParserSpec.ParseStatements` |
| ParserProps.StreamWellFormed | lexer/lexer.go:30-112 | every token of a lexed input is well formed |
| ParserProps.StatementTokenLiterals | parser/letStatement.go:8-14 | on a lexed input a `let` statement's token literal is `let`, its name's literal is the name, and a `return` statement's token literal is `return` |
| ParserProps.EmptyInput | parser/parser.go:79-90 | an empty input parses to a program with no statements, no errors and an empty token literal |
| ParserProps.LeftNesting | parser/exprStatement_test.go:188-189 | `a + b + c` is `((a + b) + c)` |
| ParserProps.TighterNestsInside | parser/exprStatement.go:143-151 | `a + b * c` is `(a + (b * c))` |
| ParserProps.PrefixBindsTighter | parser/exprStatement_test.go:181 | `-a * b` is `((-a) * b)` |
| ParserProps.PrefixOfPrefix | parser/exprStatement_test.go:184-185 | `!-a` is `(!(-a))` |
| ParserProps.ThreeReturns | parser/returnStatement_test.go:10-31 | `return 5; return a; return b;` is exactly three return statements with no values and no errors |
| ParserProps.LetWithoutName | parser/letStatement.go:8-12 | `let = a;` keeps a nil statement, reports the missing name, then reports `=` as having no prefix handler, then parses `a` |
| ParserProps.MissingName | parser/letStatement.go:10-11 | the nil `let`'s error message names the `=` found where the name should be |
| ParserProps.ReturnWithoutSemicolonHangs | parser/returnStatement.go:11-13 | `return a` with no `;` after it never finishes parsing |

## Left out

- The parser reads the token sequence `Lexer.Tokenize` produces instead of holding a
  live lexer. `Lexer.TokenizeIsStream` proves the two give the same tokens.
- Some handlers are registered in `parser/parser.go` but their bodies are not part of
  this model: `parseStringLiteral`, `parseGroupedExpression`, `parseIfExpression`,
  `parseFunctionLiteral` and `parseCallExpression`. They give an `Unparsed` node that
  consumes only its own token, and that node evaluates to `Stop(Unmodelled)`. The
  evaluator still handles string, `if`, function, call and block nodes as `Eval`
  does. The fields of those node types come from their use in `evaluator/evaluator.go`,
  because their declarations are not part of this model.
- The `String()` renderings of identifiers and blocks are not part of this model.
  `Object.Inspect` takes them as parameters.
- Parser.Parser.ParseReturnStatement: requires that a `;` follows the keyword, because
  Go's loop never ends otherwise. `ParserSpec.ParseReturnStatement` records that case
  as `Hangs`.
- Parser.Parser.ParseStatement: requires the same of a `return` statement.
- Parser.Parser.ParseProgram: requires the same of every `return` statement in the program.
- Lexer.Scan: models `NextToken` with the corrected `peekChar`, so on an input ending in
  `=`, `!`, `<` or `>` it returns the one-byte token where Go panics (see Findings).
- Lexer.Lexer.NextToken: follows `Lexer.Scan`, so it has the same corrected `peekChar`.
- Go panics are `Stop(Panic)`, without the panic message.
- Fuel bounds how deep evaluation goes, and `Stop(OutOfFuel)` is not a Go behaviour.
  `EvaluatorFuel` proves that more fuel never changes a finished result.
  Non-terminating Go programs are not modelled otherwise.
- Object identity is replaced by value equality. Every boolean the evaluator
  builds is one of the shared `TRUE`/`FALSE`, so the `switch` on object identity in
  `evalBangPrefix` and `isTruthy` agrees with value equality.
- Trackers are frames of an arena, named by index, instead of references. The Go garbage
  collector has no counterpart.
- `int(right.Value)` and `strconv.Atoi` are modelled for a 64-bit platform.
- Evaluator.EvalExpr: its own contract, and that of the other evaluation functions,
  states only the heap invariant. Their results are stated by the `EvaluatorProps`,
  `EvaluatorOps` and `EvaluatorExamples` lemmas instead.
- GoLib.ParseInt0: its contract only says that a result comes from a digit string.
  The octal reading of a leading `0` and overflow are in its definition but not proved.
  `GoLib.ParseInt0Itoa` proves the decimal round trip.
- The evaluator test helper calls `Eval(program)` with no tracker, which does not match
  the signature of `Eval`. The examples use a new top-level tracker instead.
- The REPL (`repl/repl.go`) reads lines and prints token types. It is I/O and not part
  of this model.

## Findings

| source | as written | input that shows it | evidently intended | confidence | as-written member | corrected member |
|---|---|---|---|---|---|---|
| lexer/lexer.go:165-172 | `peekChar` tests `position > len(input)` and then reads `input[readPosition]`, which is out of range when the current byte is the last one | `x =` (any input ending in `=`, `!`, `<` or `>`): the second `NextToken` call peeks past the end | return NUL when `readPosition >= len(input)`, as `readChar` does | not executed | Lexer.PeekCharAsWrittenFails | Lexer.Lexer.PeekChar |
