/**
  The pieces of Go and its standard library that the interpreter relies on:
  strings as byte sequences, 64-bit signed integers with wrap-around and
  truncating division, decimal conversion (`strconv.Itoa`, `strconv.Atoi`,
  `strconv.ParseInt` with base 0), `strings.Join`, the `%q` verb and the
  conversion `string(rune)`.
 */
module GoLib {
  import opened Wrappers

  /** A Go string is a sequence of bytes; a byte is modelled as a character below 256,
      which is exactly the value `rune(s[i])` gives in Go. */
  type Byte = c: char | c as int < 256
  type Bytes = seq<Byte>

  // ---------------------------------------------------------------------
  // int64
  // ---------------------------------------------------------------------

  const MIN64: int := -0x8000_0000_0000_0000
  const MAX64: int := 0x7FFF_FFFF_FFFF_FFFF
  const TWO64: int := 0x1_0000_0000_0000_0000

  type Int64 = x: int | MIN64 <= x <= MAX64

  /** Two's-complement wrap-around of an exact result into int64. */
  function Wrap(x: int): (r: Int64)
    ensures (r - x) % TWO64 == 0
    ensures MIN64 <= x <= MAX64 ==> r == x
  {
    (x - MIN64) % TWO64 + MIN64
  }

  function Abs(x: int): nat { if x < 0 then -x else x }

  /** Go's `/` on integers: the quotient truncated toward zero. */
  function Quo(a: int, b: int): (q: int)
    requires b != 0
    ensures Abs(a - q * b) < Abs(b)
    ensures a >= 0 ==> 0 <= a - q * b
    ensures a < 0 ==> a - q * b <= 0
  {
    var m := Abs(a) / Abs(b);
    QuoFacts(Abs(a), Abs(b));
    if (a < 0) == (b < 0) then
      assert m * b == (if b < 0 then -(m * Abs(b)) else m * Abs(b));
      m
    else
      assert -m * b == (if b < 0 then m * Abs(b) else -(m * Abs(b)));
      -m
  }

  lemma QuoFacts(x: nat, y: nat)
    requires y > 0
    ensures 0 <= x - (x / y) * y < y
  {
  }

  // ---------------------------------------------------------------------
  // Decimal text
  // ---------------------------------------------------------------------

  predicate IsDigit(c: Byte) { '0' <= c <= '9' }

  predicate AllDigits(s: Bytes) { forall i | 0 <= i < |s| :: IsDigit(s[i]) }

  function DigitValue(c: Byte): nat requires IsDigit(c) { c as int - '0' as int }

  function DigitChar(d: nat): (c: Byte)
    requires d < 10
    ensures IsDigit(c) && DigitValue(c) == d
  {
    ('0' as int + d) as char
  }

  /** The value of a digit string read in base `base`. */
  function DigitsValue(s: Bytes, base: nat): nat
    requires AllDigits(s)
  {
    if |s| == 0 then 0 else DigitsValue(s[..|s| - 1], base) * base + DigitValue(s[|s| - 1])
  }

  /** Decimal digits of a natural number, most significant first, without leading zeros. */
  function NatToDecimal(n: nat): (s: Bytes)
    ensures |s| > 0 && AllDigits(s)
    ensures |s| > 1 ==> s[0] != '0'
    ensures n > 0 ==> s[0] != '0'
  {
    if n < 10 then [DigitChar(n)] else NatToDecimal(n / 10) + [DigitChar(n % 10)]
  }

  lemma {:induction false} DecimalRoundTrip(n: nat)
    ensures DigitsValue(NatToDecimal(n), 10) == n
  {
    if n >= 10 {
      var s := NatToDecimal(n);
      assert s[..|s| - 1] == NatToDecimal(n / 10);
      DecimalRoundTrip(n / 10);
    }
  }

  /** `strconv.Itoa`, and `fmt.Sprintf("%d", ...)`: signed decimal text. */
  function Itoa(n: int): (s: Bytes)
    ensures |s| > 0
    ensures n >= 0 ==> s == NatToDecimal(n)
    ensures n < 0 ==> s == "-" + NatToDecimal(-n)
  {
    if n < 0 then "-" + NatToDecimal(-n) else NatToDecimal(n)
  }

  /** `strconv.Atoi` on a 64-bit platform: an optional sign, at least one decimal digit,
      and a value that fits in int64; anything else is an error (None). */
  function Atoi(s: Bytes): Option<Int64>
  {
    if |s| == 0 then None
    else
      var body := if s[0] == '-' || s[0] == '+' then s[1..] else s;
      if |body| == 0 || !AllDigits(body) then None
      else
        var v: int := if s[0] == '-' then -(DigitsValue(body, 10) as int) else DigitsValue(body, 10);
        if MIN64 <= v <= MAX64 then Some(v) else None
  }

  /** Decimal text read back by Atoi gives the same integer. */
  lemma AtoiItoa(n: Int64)
    ensures Atoi(Itoa(n)) == Some(n)
  {
    if n >= 0 {
      DecimalRoundTrip(n);
    } else {
      var s := Itoa(n);
      assert s[1..] == NatToDecimal(-(n as int));
      DecimalRoundTrip(-(n as int));
    }
  }

  predicate AllOctal(s: Bytes) { forall i | 0 <= i < |s| :: '0' <= s[i] <= '7' }

  /** `strconv.ParseInt(s, 0, 64)` on a digit string: a leading `0` selects base 8 for the
      digits after it (so `"0"` is zero and `"08"` is an error), otherwise base 10; a value
      above the int64 maximum is an error. */
  function ParseInt0(s: Bytes): (r: Option<Int64>)
    ensures r.Some? ==> |s| > 0 && AllDigits(s)
  {
    if |s| == 0 || !AllDigits(s) then None
    else if s[0] == '0' then
      var rest := s[1..];
      if AllOctal(rest) && DigitsValue(rest, 8) <= MAX64 then Some(DigitsValue(rest, 8)) else None
    else if DigitsValue(s, 10) <= MAX64 then Some(DigitsValue(s, 10))
    else None
  }

  /** A non-negative int64 printed in decimal parses back to itself. */
  lemma ParseInt0Itoa(n: Int64)
    requires n >= 0
    ensures ParseInt0(Itoa(n)) == Some(n)
  {
    DecimalRoundTrip(n);
    if n == 0 {
      assert Itoa(n) == "0";
      assert Itoa(n)[1..] == [];
    }
  }

  // ---------------------------------------------------------------------
  // Strings
  // ---------------------------------------------------------------------

  /** The string made of `n` copies of `s`; empty when `n <= 0`. */
  function Repeat(s: Bytes, n: int): (r: Bytes)
    ensures |r| == (if n <= 0 then 0 else n * |s|)
  {
    if n <= 0 then [] else Repeat(s, n - 1) + s
  }

  /** `strings.Join`. */
  function Join(parts: seq<Bytes>, sep: Bytes): (r: Bytes)
    ensures |parts| == 1 ==> r == parts[0]
  {
    if |parts| == 0 then []
    else if |parts| == 1 then parts[0]
    else parts[0] + sep + Join(parts[1..], sep)
  }

  /** The `%q` verb on a string of printable characters other than `"` and `\`. */
  function Quote(s: Bytes): Bytes { "\"" + s + "\"" }

  /** `string(rune(c))`: the UTF-8 encoding of the code point `c`, one byte below 128 and
      two bytes from 128 on. */
  function EncodeRune(c: Byte): (r: Bytes)
    ensures |r| == (if c as int < 128 then 1 else 2)
  {
    if c as int < 128 then [c]
    else [(0xC0 + c as int / 64) as char, (0x80 + c as int % 64) as char]
  }

  /** Decoding of the one- and two-byte UTF-8 forms that EncodeRune produces. */
  function DecodeRune(r: Bytes): Option<Byte>
  {
    if |r| == 1 && r[0] as int < 128 then Some(r[0])
    else if |r| == 2 && 0xC0 <= r[0] as int < 0xC4 && 0x80 <= r[1] as int < 0xC0 then
      Some(((r[0] as int - 0xC0) * 64 + (r[1] as int - 0x80)) as char)
    else None
  }

  lemma EncodeRuneRoundTrip(c: Byte)
    ensures DecodeRune(EncodeRune(c)) == Some(c)
  {
  }
}
