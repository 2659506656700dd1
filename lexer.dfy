/**
  The lexer: it turns the source text into tokens one `NextToken` call at a time.

  The pure function `Scan(input, p)` is the specification of one call: from a
  lexer whose current position is `p` it gives the token produced and the new
  position. The class `Lexer` keeps the state the source keeps (position,
  read position, current byte) and its methods are proved to follow `Scan`.
 */
module Lexer {
  import opened Wrappers
  import opened GoLib
  import opened Token

  // ---------------------------------------------------------------------
  // Characters
  // ---------------------------------------------------------------------

  /** The byte at `i`, or NUL past the end of the input (what `readChar` stores in `ch`). */
  function CharAt(input: Bytes, i: nat): Byte
  {
    if i < |input| then input[i] else 0 as char
  }

  predicate IsWhitespace(c: Byte) { c == ' ' || c == '\t' || c == '\n' || c == '\r' }

  /** `isLetter`: ASCII letters and the underscore. */
  predicate IsLetter(c: Byte) { 'a' <= c <= 'z' || 'A' <= c <= 'Z' || c == '_' }

  predicate AllLetters(s: Bytes) { forall i | 0 <= i < |s| :: IsLetter(s[i]) }

  /** The bytes that make a one-byte token on their own, and its kind. */
  function Punctuation(c: Byte): (k: Option<TokenType>)
    ensures k.Some? ==> Tag(k.value) == [c]
  {
    match c
    case '-' => Some(Minus)
    case '+' => Some(Plus)
    case '*' => Some(Asterisk)
    case '/' => Some(Slash)
    case '(' => Some(LParen)
    case ')' => Some(RParen)
    case '{' => Some(LBrace)
    case '}' => Some(RBrace)
    case ';' => Some(Semicolon)
    case ',' => Some(Comma)
    case _ => None
  }

  /** `newToken`: a token whose literal is the current character as a Go string. */
  function NewToken(kind: TokenType, c: Byte): Token
  {
    Token(kind, EncodeRune(c))
  }

  /** The byte classes `NextToken` tells apart do not overlap: a letter or a digit is not
      a space, a quote, NUL, an operator byte or a byte with a token of its own, and no
      letter is a digit, so the order of the branches hides none of them. */
  lemma ByteClassesDisjoint(c: Byte)
    ensures IsLetter(c) ==> !IsDigit(c)
    ensures IsLetter(c) || IsDigit(c) ==>
      && !IsWhitespace(c) && Punctuation(c).None? && c != '"' && c != 0 as char
      && c != '=' && c != '!' && c != '<' && c != '>'
  {
  }

  /** `newToken` keeps the kind; an ASCII byte is its own literal, and every byte reads
      back from the literal. */
  lemma NewTokenLiteral(kind: TokenType, c: Byte)
    ensures NewToken(kind, c).kind == kind
    ensures c as int < 128 ==> NewToken(kind, c).literal == [c]
    ensures DecodeRune(NewToken(kind, c).literal) == Some(c)
  {
    EncodeRuneRoundTrip(c);
  }

  // ---------------------------------------------------------------------
  // The runs of bytes the lexer reads
  // ---------------------------------------------------------------------

  /** Where `skipWhiteSpace` stops: the first non-blank position from `p` on. */
  function SkipWs(input: Bytes, p: nat): (q: nat)
    ensures p <= q
    ensures forall i | p <= i < q :: IsWhitespace(CharAt(input, i))
    ensures !IsWhitespace(CharAt(input, q))
    ensures p <= |input| ==> q <= |input|
    ensures p > |input| ==> q == p
    decreases |input| - p
  {
    if IsWhitespace(CharAt(input, p)) then SkipWs(input, p + 1) else p
  }

  /** Where `readIdentifier` stops: the first non-letter from `p` on. */
  function IdentEnd(input: Bytes, p: nat): (r: nat)
    ensures p <= r
    ensures forall i | p <= i < r :: IsLetter(CharAt(input, i))
    ensures !IsLetter(CharAt(input, r))
    ensures p <= |input| ==> r <= |input|
    decreases |input| - p
  {
    if IsLetter(CharAt(input, p)) then IdentEnd(input, p + 1) else p
  }

  /** Where `readNumber` stops: the first non-digit from `p` on. */
  function NumberEnd(input: Bytes, p: nat): (r: nat)
    ensures p <= r
    ensures forall i | p <= i < r :: IsDigit(CharAt(input, i))
    ensures !IsDigit(CharAt(input, r))
    ensures p <= |input| ==> r <= |input|
    decreases |input| - p
  {
    if IsDigit(CharAt(input, p)) then NumberEnd(input, p + 1) else p
  }

  predicate EndsString(c: Byte) { c == '"' || c == 0 as char }

  /** Where `readString` stops: the first closing quote or NUL from `p` on. */
  function StringEnd(input: Bytes, p: nat): (r: nat)
    ensures p <= r
    ensures forall i | p <= i < r :: !EndsString(CharAt(input, i))
    ensures EndsString(CharAt(input, r))
    ensures p <= |input| ==> r <= |input|
    decreases |input| - p
  {
    if !EndsString(CharAt(input, p)) then StringEnd(input, p + 1) else p
  }

  // ---------------------------------------------------------------------
  // One call of NextToken
  // ---------------------------------------------------------------------

  /** The token `NextToken` returns from current position `p`, and the position after it:
      blanks are skipped, then `ScanAt` reads one token. */
  function Scan(input: Bytes, p: nat): (r: (Token, nat))
    ensures r.1 > p
    ensures p <= |input| ==> r.1 <= |input| + 1
    ensures p > |input| ==> r == (Token(Eof, ""), p + 1)
  {
    ScanAt(input, SkipWs(input, p))
  }

  /** One token read from a non-blank position `q`; a NUL byte, inside the input or
      past its end, gives EOF. */
  function ScanAt(input: Bytes, q: nat): (r: (Token, nat))
    requires !IsWhitespace(CharAt(input, q))
    ensures r.1 > q
    ensures q <= |input| ==> r.1 <= |input| + 1
    ensures q >= |input| ==> r == (Token(Eof, ""), q + 1)
  {
    var c := CharAt(input, q);
    if IsOperatorStart(c) then ScanOperator(input, q)
    else if Punctuation(c).Some? then (Token(Punctuation(c).value, [c]), q + 1)
    else if c == 0 as char then (Token(Eof, ""), q + 1)
    else if c == '"' then ScanString(input, q)
    else if IsLetter(c) then ScanWord(input, q)
    else if IsDigit(c) then ScanNumber(input, q)
    else (Token(Illegal, EncodeRune(c)), q + 1)
  }

  /** The bytes that start a one- or two-byte operator. */
  predicate IsOperatorStart(c: Byte) { c == '=' || c == '!' || c == '<' || c == '>' }

  /** The kind of the operator `c` alone, and of `c` followed by `=`. */
  function OperatorKind(c: Byte, withEquals: bool): (k: TokenType)
    requires IsOperatorStart(c)
    ensures Tag(k) == if withEquals then [c, '='] else [c]
  {
    match c
    case '=' => if withEquals then Eq else Assign
    case '!' => if withEquals then NotEq else Bang
    case '<' => if withEquals then LtEq else Lt
    case '>' => if withEquals then GtEq else Gt
  }

  /** `=`, `!`, `<`, `>`: a two-byte operator when the next byte (NUL past the end) is `=`. */
  function ScanOperator(input: Bytes, q: nat): (r: (Token, nat))
    requires IsOperatorStart(CharAt(input, q))
    ensures q < |input|
    ensures r.1 == q + 1 || (r.1 == q + 2 && q + 1 < |input|)
    ensures r.0.literal == input[q..r.1]
  {
    var c := input[q];
    if CharAt(input, q + 1) == '=' then (Token(OperatorKind(c, true), [c, '=']), q + 2)
    else (Token(OperatorKind(c, false), [c]), q + 1)
  }

  /** A string literal from its opening quote at `q`; the token holds the bytes up to the
      closing quote or NUL, and the position moves past that byte. */
  function ScanString(input: Bytes, q: nat): (r: (Token, nat))
    requires CharAt(input, q) == '"'
    ensures q < |input| && q + 1 < r.1 <= |input| + 1
    ensures r.0.kind == Str && r.0.literal == input[q + 1..r.1 - 1]
  {
    var e := StringEnd(input, q + 1);
    (Token(Str, input[q + 1..e]), e + 1)
  }

  /** A keyword or identifier from its first letter at `q`. */
  function ScanWord(input: Bytes, q: nat): (r: (Token, nat))
    requires IsLetter(CharAt(input, q))
    ensures q < r.1 <= |input| && r.0.literal == input[q..r.1]
    ensures r.0.kind == LookUpKeyword(r.0.literal)
  {
    var e := IdentEnd(input, q);
    (Token(LookUpKeyword(input[q..e]), input[q..e]), e)
  }

  /** A number from its first digit at `q`. */
  function ScanNumber(input: Bytes, q: nat): (r: (Token, nat))
    requires IsDigit(CharAt(input, q))
    ensures q < r.1 <= |input| && r.0.literal == input[q..r.1]
    ensures r.0.kind == Int
  {
    var e := NumberEnd(input, q);
    (Token(Int, input[q..e]), e)
  }

  /** A byte that no rule of the lexer accepts. */
  predicate IsIllegalByte(c: Byte)
  {
    !IsWhitespace(c) && !IsOperatorStart(c) && Punctuation(c).None? && c != 0 as char
    && c != '"' && !IsLetter(c) && !IsDigit(c)
  }

  predicate NoStringEnd(s: Bytes) { forall i | 0 <= i < |s| :: !EndsString(s[i]) }

  /** What the literal of a token of each kind looks like. */
  predicate WellFormed(t: Token)
  {
    match t.kind
    case Eof => t.literal == ""
    case Illegal => DecodeRune(t.literal).Some? && IsIllegalByte(DecodeRune(t.literal).value)
    case Ident => |t.literal| > 0 && AllLetters(t.literal) && t.literal !in Keywords
    case Int => |t.literal| > 0 && AllDigits(t.literal)
    case Str => NoStringEnd(t.literal)
    case _ => if IsKeyword(t.kind) then t.literal == Spelling(t.kind) else t.literal == Tag(t.kind)
  }

  lemma ScanWordWellFormed(input: Bytes, q: nat)
    requires IsLetter(CharAt(input, q))
    ensures WellFormed(ScanWord(input, q).0)
  {
    var (t, e) := ScanWord(input, q);
    forall i | 0 <= i < |t.literal| ensures IsLetter(t.literal[i]) {
      assert t.literal[i] == CharAt(input, q + i);
    }
  }

  lemma ScanNumberWellFormed(input: Bytes, q: nat)
    requires IsDigit(CharAt(input, q))
    ensures WellFormed(ScanNumber(input, q).0)
  {
    var (t, e) := ScanNumber(input, q);
    forall i | 0 <= i < |t.literal| ensures IsDigit(t.literal[i]) {
      assert t.literal[i] == CharAt(input, q + i);
    }
  }

  lemma ScanStringWellFormed(input: Bytes, q: nat)
    requires CharAt(input, q) == '"'
    ensures WellFormed(ScanString(input, q).0)
  {
    var (t, e) := ScanString(input, q);
    forall i | 0 <= i < |t.literal| ensures !EndsString(t.literal[i]) {
      assert t.literal[i] == CharAt(input, q + 1 + i);
    }
  }

  /** Every token the lexer produces is well formed. */
  lemma ScanWellFormed(input: Bytes, p: nat)
    ensures WellFormed(Scan(input, p).0)
  {
    var q := SkipWs(input, p);
    var c := CharAt(input, q);
    if IsOperatorStart(c) {
    } else if Punctuation(c).Some? {
    } else if c == 0 as char {
    } else if c == '"' {
      ScanStringWellFormed(input, q);
    } else if IsLetter(c) {
      ScanWordWellFormed(input, q);
    } else if IsDigit(c) {
      ScanNumberWellFormed(input, q);
    } else {
      EncodeRuneRoundTrip(c);
    }
  }

  /** The text a token was read from: blanks are skipped, then keywords, identifiers,
      numbers and operators are exactly the bytes consumed, a string is the bytes between
      its quotes, an illegal token is the one byte it stands for, and EOF is a NUL byte or
      the end of the input. */
  lemma ScanConsumes(input: Bytes, p: nat)
    ensures var q := SkipWs(input, p);
            var (t, r) := Scan(input, p);
            q < r
            && (t.kind == Eof <==> CharAt(input, q) == 0 as char)
            && (t.kind == Eof ==> r == q + 1)
            && (t.kind == Str ==> r <= |input| + 1 && t.literal == input[q + 1..r - 1])
            && (t.kind == Illegal ==> r == q + 1 && t.literal == EncodeRune(input[q]))
            && (t.kind !in {Eof, Str, Illegal} ==> r <= |input| && t.literal == input[q..r])
  {
    var q := SkipWs(input, p);
    var c := CharAt(input, q);
    if IsLetter(c) && !IsOperatorStart(c) && Punctuation(c).None? {
      var w := ScanWord(input, q).0.literal;
      assert LookUpKeyword(w) != Str && LookUpKeyword(w) != Illegal && LookUpKeyword(w) != Eof;
    }
  }

  /** `=`, `!`, `<`, `>` followed by `=` make one two-byte operator; otherwise the byte is
      a token on its own (so `<>` is LT then GT). */
  lemma OperatorLookahead(input: Bytes, p: nat)
    requires IsOperatorStart(CharAt(input, SkipWs(input, p)))
    ensures var q := SkipWs(input, p);
            var c := input[q];
            var (t, r) := Scan(input, p);
            (CharAt(input, q + 1) == '=' ==> t == Token(OperatorKind(c, true), [c, '=']) && r == q + 2)
            && (CharAt(input, q + 1) != '=' ==> t == Token(OperatorKind(c, false), [c]) && r == q + 1)
  {
  }

  /** An identifier or keyword is the longest run of letters from its first byte, and its
      kind is what the keyword table says about that run. */
  lemma ScanIdentifier(input: Bytes, p: nat)
    requires IsLetter(CharAt(input, SkipWs(input, p)))
    ensures var q := SkipWs(input, p);
            var (t, r) := Scan(input, p);
            q < r <= |input| && t.literal == input[q..r] && AllLetters(t.literal)
            && !IsLetter(CharAt(input, r)) && t.kind == LookUpKeyword(t.literal)
  {
    var q := SkipWs(input, p);
    ScanWordWellFormed(input, q);
    KeywordsAreSpellings(ScanWord(input, q).0.literal);
  }

  /** An integer is the longest run of digits from its first byte; there is no sign. */
  lemma ScanInteger(input: Bytes, p: nat)
    requires IsDigit(CharAt(input, SkipWs(input, p)))
    ensures var q := SkipWs(input, p);
            var (t, r) := Scan(input, p);
            t.kind == Int && q < r <= |input| && t.literal == input[q..r] && AllDigits(t.literal)
            && !IsDigit(CharAt(input, r))
  {
    ScanNumberWellFormed(input, SkipWs(input, p));
  }

  /** A string is the bytes strictly between its quote and the next quote or NUL, without
      escapes; with neither, it runs to the end of the input. */
  lemma ScanStringLiteral(input: Bytes, p: nat)
    requires CharAt(input, SkipWs(input, p)) == '"'
    ensures var q := SkipWs(input, p);
            var (t, r) := Scan(input, p);
            var e := r - 1;
            t.kind == Str && q < e <= |input| && t.literal == input[q + 1..e]
            && NoStringEnd(t.literal)
            && (e == |input| || input[e] == '"' || input[e] == 0 as char)
  {
    ScanStringWellFormed(input, SkipWs(input, p));
  }

  /** Any other byte is one ILLEGAL token holding that byte (as a Go string). */
  lemma ScanIllegal(input: Bytes, p: nat)
    requires IsIllegalByte(CharAt(input, SkipWs(input, p)))
    ensures var q := SkipWs(input, p);
            Scan(input, p) == (Token(Illegal, EncodeRune(input[q])), q + 1)
  {
  }

  /** Blanks before a token do not change it. */
  lemma ScanSkipsWhitespace(input: Bytes, p: nat)
    ensures Scan(input, p) == Scan(input, SkipWs(input, p))
  {
    var q := SkipWs(input, p);
    assert SkipWs(input, q) == q;
  }

  // ---------------------------------------------------------------------
  // The token stream
  // ---------------------------------------------------------------------

  /** The token at index `i` of a stream that continues with EOF tokens forever. */
  function At(ts: seq<Token>, i: nat): Token
  {
    if i < |ts| then ts[i] else Token(Eof, "")
  }

  /** The tokens from position `p` up to the EOF token the end of the input produces;
      after it the lexer yields only EOF tokens (`StickyEof`). A NUL byte inside the
      input gives an EOF token that is not the last one. */
  function TokensFrom(input: Bytes, p: nat): (ts: seq<Token>)
    requires p <= |input| + 1
    ensures |ts| > 0 && ts[|ts| - 1].kind == Eof
    decreases |input| + 2 - p
  {
    var r := Scan(input, p);
    if r.0.kind == Eof && r.1 > |input| then [r.0] else [r.0] + TokensFrom(input, r.1)
  }

  function Tokenize(input: Bytes): (ts: seq<Token>)
    ensures |ts| > 0 && ts[|ts| - 1].kind == Eof
  {
    TokensFrom(input, 0)
  }

  /** The position after `n` calls of NextToken starting from position `p`. */
  function PosAfter(input: Bytes, p: nat, n: nat): nat
    decreases n
  {
    if n == 0 then p else PosAfter(input, Scan(input, p).1, n - 1)
  }

  /** The `n`-th token (from 0) a lexer created on `input` returns. */
  function LexTok(input: Bytes, n: nat): Token
  {
    Scan(input, PosAfter(input, 0, n)).0
  }

  lemma {:induction false} PosAfterStep(input: Bytes, p: nat, n: nat)
    ensures PosAfter(input, p, n + 1) == Scan(input, PosAfter(input, p, n)).1
    decreases n
  {
    if n > 0 {
      PosAfterStep(input, Scan(input, p).1, n - 1);
    }
  }

  /** Once past the end of the input the lexer stays there. */
  lemma {:induction false} StickyEof(input: Bytes, p: nat, n: nat)
    requires p > |input|
    ensures PosAfter(input, p, n) > |input|
    ensures Scan(input, PosAfter(input, p, n)).0 == Token(Eof, "")
    decreases n
  {
    if n > 0 {
      StickyEof(input, p + 1, n - 1);
    }
  }

  /** The stream from `p` starts with the token at `p`. */
  lemma TokensFromHead(input: Bytes, p: nat)
    requires p <= |input| + 1
    ensures At(TokensFrom(input, p), 0) == Scan(input, p).0
    ensures Scan(input, PosAfter(input, p, 0)).0 == At(TokensFrom(input, p), 0)
  {
  }

  /** After the token at `p` the stream from `p` continues as the stream from the next
      position, or with EOF forever once the end of the input is passed. */
  lemma TokensFromTail(input: Bytes, p: nat, m: nat)
    requires p <= |input| + 1
    ensures var r := Scan(input, p);
            At(TokensFrom(input, p), m + 1)
            == if r.0.kind == Eof && r.1 > |input| then Token(Eof, "") else At(TokensFrom(input, r.1), m)
  {
  }

  /** Tokenize lists exactly the tokens successive NextToken calls return; every later call
      returns EOF. */
  lemma {:induction false} TokensFromIsStream(input: Bytes, p: nat, n: nat)
    requires p <= |input| + 1
    ensures Scan(input, PosAfter(input, p, n)).0 == At(TokensFrom(input, p), n)
    decreases n
  {
    if n == 0 {
      TokensFromHead(input, p);
    } else if Scan(input, p).0.kind == Eof && Scan(input, p).1 > |input| {
      StreamAfterEnd(input, p, n);
    } else {
      var next := StreamMoves(input, p, n);
      TokensFromIsStream(input, next, n - 1);
    }
  }

  /** Before the end of the input, both sides move on to the next position together. */
  lemma StreamMoves(input: Bytes, p: nat, n: nat) returns (next: nat)
    requires p <= |input| + 1 && n > 0
    requires !(Scan(input, p).0.kind == Eof && Scan(input, p).1 > |input|)
    ensures next == Scan(input, p).1 && next <= |input| + 1
    ensures PosAfter(input, p, n) == PosAfter(input, next, n - 1)
    ensures At(TokensFrom(input, p), n) == At(TokensFrom(input, next), n - 1)
  {
    StreamStep(input, p, n);
    next := Scan(input, p).1;
  }

  /** Once the end of the input has given its EOF token, both sides are EOF. */
  lemma StreamAfterEnd(input: Bytes, p: nat, n: nat)
    requires p <= |input| + 1 && n > 0
    requires Scan(input, p).0.kind == Eof && Scan(input, p).1 > |input|
    ensures Scan(input, PosAfter(input, p, n)).0 == At(TokensFrom(input, p), n)
  {
    StreamStep(input, p, n);
    StickyEof(input, Scan(input, p).1, n - 1);
  }

  /** One step of both sides of `TokensFromIsStream`. */
  lemma StreamStep(input: Bytes, p: nat, n: nat)
    requires p <= |input| + 1 && n > 0
    ensures var r := Scan(input, p);
      && PosAfter(input, p, n) == PosAfter(input, r.1, n - 1)
      && At(TokensFrom(input, p), n)
         == if r.0.kind == Eof && r.1 > |input| then Token(Eof, "") else At(TokensFrom(input, r.1), n - 1)
  {
    TokensFromTail(input, p, n - 1);
  }

  lemma TokenizeIsStream(input: Bytes, n: nat)
    ensures LexTok(input, n) == At(Tokenize(input), n)
  {
    TokensFromIsStream(input, 0, n);
  }

  // ---------------------------------------------------------------------
  // Token text lexes back to the token
  // ---------------------------------------------------------------------

  /** Source text of a token: its literal, with quotes around a string. */
  function Render(t: Token): Bytes
  {
    if t.kind == Str then "\"" + t.literal + "\"" else t.literal
  }

  /** Tokens that have a source text of their own. */
  predicate Renderable(t: Token)
  {
    WellFormed(t) && t.kind != Eof && t.kind != Illegal
  }

  lemma IdentEndAt(input: Bytes, p: nat, r: nat)
    requires p <= r
    requires forall i | p <= i < r :: IsLetter(CharAt(input, i))
    requires !IsLetter(CharAt(input, r))
    ensures IdentEnd(input, p) == r
  {
  }

  lemma NumberEndAt(input: Bytes, p: nat, r: nat)
    requires p <= r
    requires forall i | p <= i < r :: IsDigit(CharAt(input, i))
    requires !IsDigit(CharAt(input, r))
    ensures NumberEnd(input, p) == r
  {
  }

  lemma StringEndAt(input: Bytes, p: nat, r: nat)
    requires p <= r
    requires forall i | p <= i < r :: !EndsString(CharAt(input, i))
    requires EndsString(CharAt(input, r))
    ensures StringEnd(input, p) == r
  {
  }

  lemma SpellingIsWord(k: TokenType)
    requires IsKeyword(k)
    ensures |Spelling(k)| > 0 && AllLetters(Spelling(k))
  {
  }

  /** A word (identifier or keyword) followed by a blank lexes back to itself. */
  lemma ScanRenderWord(t: Token, rest: Bytes)
    requires Renderable(t) && (t.kind == Ident || IsKeyword(t.kind))
    requires |rest| > 0 && IsWhitespace(rest[0])
    ensures Scan(t.literal + rest, 0) == (t, |t.literal|)
  {
    var input := t.literal + rest;
    var w := t.literal;
    if IsKeyword(t.kind) { SpellingIsWord(t.kind); LookUpSpelling(t.kind); }
    assert CharAt(input, 0) == w[0];
    assert SkipWs(input, 0) == 0;
    forall i | 0 <= i < |w| ensures IsLetter(CharAt(input, i)) {
      assert CharAt(input, i) == w[i];
    }
    assert CharAt(input, |w|) == rest[0];
    IdentEndAt(input, 0, |w|);
    assert input[0..|w|] == w;
  }

  /** A number followed by a blank lexes back to itself. */
  lemma ScanRenderNumber(t: Token, rest: Bytes)
    requires Renderable(t) && t.kind == Int
    requires |rest| > 0 && IsWhitespace(rest[0])
    ensures Scan(t.literal + rest, 0) == (t, |t.literal|)
  {
    var input := t.literal + rest;
    var w := t.literal;
    assert CharAt(input, 0) == w[0];
    assert SkipWs(input, 0) == 0;
    forall i | 0 <= i < |w| ensures IsDigit(CharAt(input, i)) {
      assert CharAt(input, i) == w[i];
    }
    assert CharAt(input, |w|) == rest[0];
    NumberEndAt(input, 0, |w|);
    assert input[0..|w|] == w;
  }

  /** A quoted string lexes back to its contents. */
  lemma ScanRenderString(t: Token, rest: Bytes)
    requires Renderable(t) && t.kind == Str
    ensures Scan(Render(t) + rest, 0) == (t, |Render(t)|)
  {
    var input := Render(t) + rest;
    var w := t.literal;
    assert CharAt(input, 0) == '"';
    assert SkipWs(input, 0) == 0;
    forall i | 1 <= i < 1 + |w| ensures !EndsString(CharAt(input, i)) {
      assert CharAt(input, i) == w[i - 1];
    }
    assert CharAt(input, 1 + |w|) == '"';
    StringEndAt(input, 1, 1 + |w|);
    assert input[1..1 + |w|] == w;
  }

  /** An operator or delimiter followed by a blank lexes back to itself. */
  lemma ScanRenderSymbol(t: Token, rest: Bytes)
    requires Renderable(t) && t.kind !in {Ident, Int, Str} && !IsKeyword(t.kind)
    requires |rest| > 0 && IsWhitespace(rest[0])
    ensures Scan(t.literal + rest, 0) == (t, |t.literal|)
  {
    var input := t.literal + rest;
    assert t.literal == Tag(t.kind);
    assert CharAt(input, 0) == t.literal[0];
    assert SkipWs(input, 0) == 0;
    if |t.literal| == 1 {
      assert CharAt(input, 1) == rest[0];
    } else {
      assert CharAt(input, 1) == t.literal[1];
    }
  }

  lemma ScanRender(t: Token, rest: Bytes)
    requires Renderable(t)
    requires |rest| > 0 && IsWhitespace(rest[0])
    ensures Scan(Render(t) + rest, 0) == (t, |Render(t)|)
  {
    if t.kind == Str {
      ScanRenderString(t, rest);
    } else if t.kind == Int {
      ScanRenderNumber(t, rest);
    } else if t.kind == Ident || IsKeyword(t.kind) {
      ScanRenderWord(t, rest);
    } else {
      ScanRenderSymbol(t, rest);
    }
  }

  /** `<>` is two tokens. */
  lemma LessGreaterIsTwoTokens()
    ensures Tokenize("<>") == [Token(Lt, "<"), Token(Gt, ">"), Token(Eof, "")]
  {
  }

  // ---------------------------------------------------------------------
  // peekChar as written
  // ---------------------------------------------------------------------

  /** `peekChar` as the source writes it: it guards on `position > len(input)` but reads
      `input[readPosition]`; None stands for Go's index-out-of-range panic. */
  function PeekCharAsWritten(input: Bytes, position: nat, readPosition: nat): (r: Option<Byte>)
    ensures r.None? <==> position <= |input| <= readPosition
    ensures r.Some? && position <= |input| ==> r.value == input[readPosition]
  {
    if position > |input| then Some(0 as char)
    else if readPosition < |input| then Some(input[readPosition])
    else None
  }

  /** In every state where NextToken peeks (the current byte is inside the input), the
      written `peekChar` agrees with the corrected one except when that byte is the last,
      where it panics. */
  lemma PeekCharAsWrittenFails(input: Bytes, p: nat)
    requires p < |input|
    ensures PeekCharAsWritten(input, p, p + 1).None? <==> p == |input| - 1
    ensures p < |input| - 1 ==> PeekCharAsWritten(input, p, p + 1) == Some(CharAt(input, p + 1))
  {
  }

  /** For instance `x =`: the second NextToken call reaches `=` as the last byte and
      peeks past the end, while the corrected lexer returns ASSIGN. */
  lemma TrailingAssignPanics()
    ensures var input: Bytes := "x =";
            var p := PosAfter(input, 0, 1);
            var q := SkipWs(input, p);
            CharAt(input, q) == '='
            && PeekCharAsWritten(input, q, q + 1).None?
            && LexTok(input, 1) == Token(Assign, "=")
  {
    var input: Bytes := "x =";
    assert IdentEnd(input, 0) == 1 by {
      IdentEndAt(input, 0, 1);
    }
    assert PosAfter(input, 0, 1) == 1;
    assert SkipWs(input, 1) == 2;
  }

  class Lexer {
    const input: Bytes
    var position: nat
    var readPosition: nat
    var ch: Byte

    /** `readPosition` is always one past `position`, and `ch` is the byte at `position`. */
    ghost predicate Valid()
      reads this
    {
      readPosition == position + 1 && ch == CharAt(input, position)
    }

    /** `New`: a lexer on `input` whose current byte is the first one. */
    constructor New(input: Bytes)
      ensures Valid() && this.input == input && position == 0
    {
      this.input := input;
      position := 0;
      readPosition := 0;
      ch := 0 as char;
      new;
      ReadChar();
    }

    /** `readChar`: move to the next byte, NUL once past the end. */
    method ReadChar()
      modifies this
      ensures position == old(readPosition) && readPosition == old(readPosition) + 1
      ensures ch == CharAt(input, position)
    {
      if readPosition >= |input| {
        ch := 0 as char;
      } else {
        ch := input[readPosition];
      }
      position := readPosition;
      readPosition := readPosition + 1;
    }

    /** `peekChar`, corrected: the byte after the current one, NUL past the end. */
    function PeekChar(): (c: Byte)
      reads this
      ensures c == CharAt(input, readPosition)
    {
      if readPosition >= |input| then 0 as char else input[readPosition]
    }

    method SkipWhiteSpace()
      requires Valid()
      modifies this
      ensures Valid() && position == SkipWs(input, old(position))
    {
      while ch == ' ' || ch == '\t' || ch == '\n' || ch == '\r'
        invariant Valid() && old(position) <= position
        invariant SkipWs(input, old(position)) == SkipWs(input, position)
        decreases |input| - position
      {
        ReadChar();
      }
    }

    method ReadIdentifier() returns (s: Bytes)
      requires Valid() && position <= |input|
      modifies this
      ensures Valid() && position == IdentEnd(input, old(position))
      ensures s == input[old(position)..position]
    {
      var start := position;
      while IsLetter(ch)
        invariant Valid() && start <= position <= |input|
        invariant IdentEnd(input, start) == IdentEnd(input, position)
        decreases |input| - position
      {
        ReadChar();
      }
      s := input[start..position];
    }

    method ReadNumber() returns (s: Bytes)
      requires Valid() && position <= |input|
      modifies this
      ensures Valid() && position == NumberEnd(input, old(position))
      ensures s == input[old(position)..position]
    {
      var start := position;
      while IsDigit(ch)
        invariant Valid() && start <= position <= |input|
        invariant NumberEnd(input, start) == NumberEnd(input, position)
        decreases |input| - position
      {
        ReadChar();
      }
      s := input[start..position];
    }

    /** `readString`: called on the opening quote, it reads up to the closing quote or
        NUL and returns the bytes in between. */
    method ReadString() returns (s: Bytes)
      requires Valid() && position < |input|
      modifies this
      ensures Valid() && position == StringEnd(input, old(position) + 1)
      ensures s == input[old(position) + 1..position]
    {
      var start := position + 1;
      ReadChar();
      while !EndsString(ch)
        invariant Valid() && start <= position <= |input|
        invariant StringEnd(input, start) == StringEnd(input, position)
        decreases |input| - position
      {
        ReadChar();
      }
      s := input[start..position];
    }

    /** `NextToken`: one token and the position after it, as `Scan` describes. The four
        operator cases and the ten delimiter cases of the source's switch each have the same
        shape and are written once, with `OperatorKind` and `Punctuation` giving the kind. */
    method NextToken() returns (tok: Token)
      requires Valid()
      modifies this
      ensures Valid()
      ensures (tok, position) == Scan(input, old(position))
    {
      SkipWhiteSpace();
      ghost var q := position;
      assert Scan(input, old(position)) == ScanAt(input, q);
      match ch {
        case '=' | '!' | '<' | '>' =>
          if PeekChar() == '=' {
            var first := ch;
            ReadChar();
            tok := Token(OperatorKind(first, true), EncodeRune(first) + EncodeRune(ch));
            assert tok.literal == [first, ch];
          } else {
            tok := NewToken(OperatorKind(ch, false), ch);
          }
        case '-' | '+' | '*' | '/' | '(' | ')' | '{' | '}' | ';' | ',' =>
          tok := NewToken(Punctuation(ch).value, ch);
        case '\0' =>
          tok := Token(Eof, "");
        case '"' =>
          var lit := ReadString();
          tok := Token(Str, lit);
        case _ =>
          if IsLetter(ch) {
            var lit := ReadIdentifier();
            tok := Token(LookUpKeyword(lit), lit);
            return;
          } else if IsDigit(ch) {
            var lit := ReadNumber();
            tok := Token(Int, lit);
            return;
          } else {
            tok := NewToken(Illegal, ch);
          }
      }
      ReadChar();
    }
  }
}
