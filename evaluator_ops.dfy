/**
  Properties of the evaluator's operator tables: truthiness and `!`, unary minus,
  int64 arithmetic, the infix dispatch and when it panics, and the string operators'
  coercion of their right operand.
 */
module EvaluatorOps {
  import opened Wrappers
  import opened GoLib
  import opened Object
  import opened Evaluator

  // ---------------------------------------------------------------------
  // Truthiness
  // ---------------------------------------------------------------------

  /** Only NIL and FALSE are falsy; `!` yields the negated truthiness, so `!!x` is the
      truthiness of `x`. */
  lemma BangIsNegatedTruthiness(v: Value)
    ensures IsTruthy(v) <==> v != NIL && v != FALSE
    ensures EvalBangPrefix(v) == NativeBool(!IsTruthy(v))
    ensures EvalBangPrefix(EvalBangPrefix(v)) == NativeBool(IsTruthy(v))
  {
  }

  /** `!5` is false and `!!5` is true; so is any integer, zero included. */
  lemma BangOfInteger(n: Int64)
    ensures EvalPrefixExpression("!", Integer(n)) == Some(FALSE)
    ensures EvalPrefixExpression("!", EvalBangPrefix(Integer(n))) == Some(TRUE)
  {
    BangIsNegatedTruthiness(Integer(n));
  }

  // ---------------------------------------------------------------------
  // Unary minus
  // ---------------------------------------------------------------------

  /** Negating twice gives the integer back, even for the most negative int64, whose
      negation wraps to itself. */
  lemma DoubleMinus(n: Int64)
    ensures EvalMinusPrefix(Integer(n)).Some? && EvalMinusPrefix(Integer(n)).value.Integer?
    ensures EvalMinusPrefix(EvalMinusPrefix(Integer(n)).value) == Some(Integer(n))
    ensures n != MIN64 ==> EvalMinusPrefix(Integer(n)) == Some(Integer(-n))
    ensures EvalMinusPrefix(Integer(MIN64)) == Some(Integer(MIN64))
  {
    assert Wrap(-MIN64) == MIN64;
  }

  /** A prefix operator panics exactly on a nil operand when it is not `!`; `-` on any other
      non-integer is an error naming its type, and an operator other than `!` and `-` is an
      error naming the operator and the type. */
  lemma PrefixOutcomes(op: Bytes, v: Value)
    ensures EvalPrefixExpression(op, v).None? <==> v.Void? && op != "!"
    ensures op == "-" && !v.Void? && !v.Integer? ==>
      EvalPrefixExpression(op, v) == Some(Error(MinusMessage(Type(v))))
    ensures op != "!" && op != "-" && !v.Void? ==>
      EvalPrefixExpression(op, v) == Some(Error(UnknownPrefixMessage(op, Type(v))))
  {
  }

  /** `-true` is an error, not NIL. */
  lemma MinusTrue()
    ensures EvalPrefixExpression("-", TRUE) == Some(Error("[Error]: Unknown operator -BOOLEAN"))
  {
    assert MinusMessage(Type(TRUE)) == "[Error]: Unknown operator -BOOLEAN";
  }

  // ---------------------------------------------------------------------
  // Integers
  // ---------------------------------------------------------------------

  /** Two integers congruent modulo 2^64 wrap to the same int64. */
  lemma WrapCongruent(a: int, b: int)
    requires (a - b) % TWO64 == 0
    ensures Wrap(a) == Wrap(b)
  {
    var k := (a - b) / TWO64;
    assert a - b == k * TWO64;
    assert a - MIN64 == (b - MIN64) + k * TWO64;
    ModMultiple(b - MIN64, k);
  }

  lemma ModMultiple(x: int, k: int)
    ensures (x + k * TWO64) % TWO64 == x % TWO64
  {
    var q := x / TWO64;
    var r := x % TWO64;
    assert x == q * TWO64 + r;
    assert x + k * TWO64 == (q + k) * TWO64 + r;
  }

  /** `+`, `-` and `*` are the exact result wrapped into int64: congruent to it modulo 2^64
      and equal to it whenever it fits. */
  lemma IntArithmetic(op: Bytes, l: Int64, r: Int64)
    requires op == "+" || op == "-" || op == "*"
    ensures var exact: int := if op == "+" then l + r else if op == "-" then l - r else l * r;
      && EvalIntOperator(op, l, r).Some?
      && EvalIntOperator(op, l, r).value.Integer?
      && (EvalIntOperator(op, l, r).value.intValue - exact) % TWO64 == 0
      && (MIN64 <= exact <= MAX64 ==> EvalIntOperator(op, l, r) == Some(Integer(exact)))
  {
  }

  /** `/` panics on a zero divisor and otherwise truncates toward zero; the most negative
      int64 divided by -1 wraps to itself. */
  lemma IntDivision(l: Int64, r: Int64)
    ensures EvalIntOperator("/", l, r).None? <==> r == 0
    ensures r != 0 ==> EvalIntOperator("/", l, r).value.Integer?
    ensures r != 0 && !(l == MIN64 && r == -1) ==>
      var q := EvalIntOperator("/", l, r).value.intValue;
      && Abs(l - q * r) < Abs(r)
      && (l >= 0 ==> l - q * r >= 0)
      && (l < 0 ==> l - q * r <= 0)
    ensures l == MIN64 && r == -1 ==> EvalIntOperator("/", l, r) == Some(Integer(MIN64))
  {
    if r != 0 && !(l == MIN64 && r == -1) {
      var q := Quo(l, r);
      QuoInRange(l, r);
      assert Wrap(q) == q;
    }
    if l == MIN64 && r == -1 {
      assert Quo(l, r) == -MIN64;
      assert Wrap(-MIN64) == MIN64;
    }
  }

  /** A truncated quotient of int64 values fits in int64, except `MIN64 / -1`. */
  lemma QuoInRange(l: Int64, r: Int64)
    requires r != 0 && !(l == MIN64 && r == -1)
    ensures MIN64 <= Quo(l, r) <= MAX64
  {
    var a, b := Abs(l), Abs(r);
    var m := a / b;
    DivNat(a, b);
    QuoFacts(a, b);
    assert m * b <= a;
    MulAtLeast(m, b);
    assert m <= a <= -MIN64;
    if m == -MIN64 {
      assert b == 1 && l == MIN64 && r == 1;
    }
    assert Quo(l, r) == (if (l < 0) == (r < 0) then m else -m);
  }

  lemma DivNat(a: nat, b: nat)
    requires b > 0
    ensures a / b >= 0
  {
  }

  /** A product with a second factor of at least one, or at least two. */
  lemma MulAtLeast(m: nat, k: nat)
    requires k >= 1
    ensures m * k >= m
    ensures k >= 2 ==> m * k >= 2 * m
  {
  }

  /** `-7 / 2` is `-3`, not `-4`. */
  lemma DivisionTruncates()
    ensures EvalIntOperator("/", -7, 2) == Some(Integer(-3))
  {
    assert Quo(-7, 2) == -3;
  }

  /** The comparison operators agree with each other and `+`, `*` commute. */
  lemma IntOperatorLaws(l: Int64, r: Int64)
    ensures EvalIntOperator("+", l, r) == EvalIntOperator("+", r, l)
    ensures EvalIntOperator("*", l, r) == EvalIntOperator("*", r, l)
    ensures EvalIntOperator("<", l, r) == EvalIntOperator(">", r, l)
    ensures EvalIntOperator("<=", l, r) == EvalIntOperator(">=", r, l)
    ensures EvalIntOperator("<=", l, r) == Some(EvalBangPrefix(EvalIntOperator(">", l, r).value))
    ensures EvalIntOperator("!=", l, r) == Some(EvalBangPrefix(EvalIntOperator("==", l, r).value))
    ensures EvalIntOperator("==", l, r) == Some(TRUE) <==> l == r
  {
  }

  /** Each comparison operator is the comparison of the two integers it names, as a
      shared boolean. */
  lemma IntComparisons(l: Int64, r: Int64)
    ensures EvalIntOperator("==", l, r) == Some(NativeBool(l == r))
    ensures EvalIntOperator("!=", l, r) == Some(NativeBool(l != r))
    ensures EvalIntOperator("<", l, r) == Some(NativeBool(l < r))
    ensures EvalIntOperator(">", l, r) == Some(NativeBool(l > r))
    ensures EvalIntOperator("<=", l, r) == Some(NativeBool(l <= r))
    ensures EvalIntOperator(">=", l, r) == Some(NativeBool(l >= r))
    ensures EvalInfixExpression("<", Integer(1), Integer(2)) == Some(TRUE)
    ensures EvalInfixExpression(">", Integer(1), Integer(2)) == Some(FALSE)
  {
  }

  /** Subtracting is adding the wrapped negation. */
  lemma MinusIsPlusNegation(l: Int64, r: Int64)
    ensures EvalIntOperator("-", l, r) == EvalIntOperator("+", l, EvalMinusPrefix(Integer(r)).value.intValue)
  {
    var nr := Wrap(-(r as int));
    WrapCongruent(l as int - r as int, l as int + nr);
  }

  /** An operator outside the integer table is an error naming it. */
  lemma IntUnknownOperator(op: Bytes, l: Int64, r: Int64)
    requires op !in {"+", "-", "*", "/", "==", "!=", "<", ">", "<=", ">="}
    ensures EvalIntOperator(op, l, r) == Some(Error(IntOpMessage(op)))
  {
  }

  // ---------------------------------------------------------------------
  // Dispatch
  // ---------------------------------------------------------------------

  /** An infix operation panics exactly when the left operand is nil, when the right one is
      nil and the left one is not a string, or on an integer division by zero. */
  lemma InfixPanics(op: Bytes, l: Value, r: Value)
    ensures EvalInfixExpression(op, l, r).None? <==>
      || l.Void?
      || (r.Void? && !l.String?)
      || (l.Integer? && r.Integer? && op == "/" && r.intValue == 0)
  {
  }

  /** Two integers use the integer table, two booleans the boolean table, a string on the
      left the string table; any other pair of objects is a mismatch error. */
  lemma InfixDispatch(op: Bytes, l: Value, r: Value)
    requires !l.Void? && !r.Void?
    ensures Type(l) == "INTEGER" && Type(r) == "INTEGER" ==>
      EvalInfixExpression(op, l, r) == EvalIntOperator(op, l.intValue, r.intValue)
    ensures Type(l) == "BOOLEAN" && Type(r) == "BOOLEAN" ==>
      EvalInfixExpression(op, l, r) == Some(EvalBoolOperator(op, l.boolValue, r.boolValue))
    ensures Type(l) == "STRING" ==>
      EvalInfixExpression(op, l, r) == Some(EvalStringOperator(op, l.strValue, r))
    ensures Type(l) != Type(r) && Type(l) != "STRING" ==>
      EvalInfixExpression(op, l, r) == Some(Error(MismatchMessage(Type(l), op, Type(r))))
  {
    TypeTagsDistinct(l, r);
    TypeTagsDistinct(l, Integer(0));
    TypeTagsDistinct(l, TRUE);
    TypeTagsDistinct(l, String([]));
    TypeTagsDistinct(r, Integer(0));
    TypeTagsDistinct(r, TRUE);
  }

  /** Booleans compare only with `==` and `!=`; `!=` is the negation of `==`. */
  lemma BoolOperators(op: Bytes, a: bool, b: bool)
    ensures EvalBoolOperator("==", a, b) == NativeBool(a == b)
    ensures EvalBoolOperator("!=", a, b) == EvalBangPrefix(EvalBoolOperator("==", a, b))
    ensures op != "==" && op != "!=" ==> EvalBoolOperator(op, a, b) == Error(BoolOpMessage(op))
  {
  }

  // ---------------------------------------------------------------------
  // Strings
  // ---------------------------------------------------------------------

  /** A right operand that is neither a string nor an integer makes every string operator
      yield NIL, before the operator is looked at. */
  lemma StringRightOperandIgnored(s: Bytes, v: Value, op: Bytes)
    requires !v.String? && !v.Integer?
    ensures EvalStringOperator(op, s, v) == NIL
    ensures EvalInfixExpression(op, String(s), v) == Some(NIL)
  {
  }

  /** `+` with a string on the right concatenates the two texts: `"hello" + "world"` is
      `"helloworld"`. */
  lemma StringPlusString(s: Bytes, t: Bytes)
    ensures EvalStringOperator("+", s, String(t)) == String(s + t)
    ensures |EvalStringOperator("+", s, String(t)).strValue| == |s| + |t|
    ensures EvalInfixExpression("+", String("hello"), String("world")) == Some(String("helloworld"))
  {
    assert "hello" + "world" == "helloworld";
  }

  /** An integer on the right is used as its decimal text, for every operator. */
  lemma StringIntegerOperand(op: Bytes, s: Bytes, n: Int64)
    ensures EvalStringOperator(op, s, Integer(n)) == EvalStringOperator(op, s, String(Itoa(n)))
    ensures EvalStringOperator("==", s, Integer(n)) == NativeBool(s == Itoa(n))
    ensures EvalStringOperator("==", Itoa(n), Integer(n)) == TRUE
  {
  }

  /** An integer on the right of `+` is appended as its decimal text, which reads back as
      the integer. */
  lemma StringPlusInteger(s: Bytes, n: Int64)
    ensures EvalStringOperator("+", s, Integer(n)) == String(s + Itoa(n))
    ensures Atoi(EvalStringOperator("+", s, Integer(n)).strValue[|s|..]) == Some(n)
  {
    AtoiItoa(n);
    assert (s + Itoa(n))[|s|..] == Itoa(n);
  }

  /** `s * n` is `n` copies of `s`, and empty for `n <= 0`. */
  lemma StringTimesInteger(s: Bytes, n: Int64)
    ensures EvalStringOperator("*", s, Integer(n)) == String(Repeat(s, n))
    ensures |EvalStringOperator("*", s, Integer(n)).strValue| == if n <= 0 then 0 else n * |s|
  {
    AtoiItoa(n);
  }

  /** A count that is not decimal text makes `*` yield NIL. */
  lemma StringTimesText(s: Bytes, t: Bytes)
    ensures Atoi(t).None? ==> EvalStringOperator("*", s, String(t)) == NIL
    ensures Atoi(t).Some? ==> EvalStringOperator("*", s, String(t)) == String(Repeat(s, Atoi(t).value))
  {
  }

  /** `"hello" * 2` is `"hellohello"`. */
  lemma HelloTimesTwo()
    ensures EvalInfixExpression("*", String("hello"), Integer(2)) == Some(String("hellohello"))
  {
    StringTimesInteger("hello", 2);
    assert Repeat("hello", 0) == [];
    assert Repeat("hello", 1) == [] + "hello" == "hello";
    assert Repeat("hello", 2) == "hello" + "hello" == "hellohello";
  }

  /** String `==` compares the texts, `!=` is its negation, and an unknown operator is an
      error naming it. */
  lemma StringComparison(s: Bytes, t: Bytes, op: Bytes)
    ensures EvalStringOperator("==", s, String(t)) == NativeBool(s == t)
    ensures EvalStringOperator("!=", s, String(t)) == EvalBangPrefix(EvalStringOperator("==", s, String(t)))
    ensures op !in {"+", "*", "==", "!="} ==> EvalStringOperator(op, s, String(t)) == Error(StringOpMessage(op))
  {
  }
}
