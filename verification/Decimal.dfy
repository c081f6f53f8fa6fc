/** Decimal text of machine integers: `to_string` and `str::parse`. */
module Decimal {
  import opened Base

  const I64_MAX: int := 0x7FFF_FFFF_FFFF_FFFF
  const U64_MAX: int := 0xFFFF_FFFF_FFFF_FFFF
  const U32_MAX: int := 0xFFFF_FFFF

  const PLUS: byte := 43
  const MINUS: byte := 45
  const ZERO: byte := 48

  predicate IsDigit(x: byte) {
    48 <= x <= 57
  }

  predicate AllDigits(s: Bytes) {
    forall i :: 0 <= i < |s| ==> IsDigit(s[i])
  }

  function Digits(n: nat): Bytes {
    if n < 10 then [48 + n] else Digits(n / 10) + [48 + n % 10]
  }

  function Value(s: Bytes): nat
    requires AllDigits(s)
  {
    if s == [] then 0 else 10 * Value(s[..|s| - 1]) + (s[|s| - 1] - 48)
  }

  /** `to_string` of a signed integer. */
  function PrintInt(n: int): Bytes {
    if n < 0 then [MINUS] + Digits(-n) else Digits(n)
  }

  /** `str::parse` of an unsigned type with the given maximum: an optional plus sign,
      then at least one digit (leading zeros allowed), no overflow. */
  function ParseUnsigned(s: Bytes, max: nat): Option<nat> {
    var d := if s != [] && s[0] == PLUS then s[1..] else s;
    if d == [] || !AllDigits(d) || Value(d) > max then None else Some(Value(d))
  }

  /** `str::parse::<i64>`. */
  function ParseI64(s: Bytes): (r: Option<int>)
    ensures r.Some? ==> -I64_MAX - 1 <= r.value <= I64_MAX
  {
    if s != [] && s[0] == MINUS then
      var d := s[1..];
      if d == [] || !AllDigits(d) || Value(d) > I64_MAX + 1 then None
      else
        var v: int := 0 - Value(d);
        Some(v)
    else
      ParseUnsigned(s, I64_MAX)
  }

  lemma {:induction false} ValueOfDigits(n: nat)
    ensures Digits(n) != [] && AllDigits(Digits(n)) && Value(Digits(n)) == n
  {
    if n >= 10 {
      ValueOfDigits(n / 10);
      assert Digits(n)[..|Digits(n)| - 1] == Digits(n / 10);
    }
  }

  /** Printing then parsing an unsigned number gives it back. */
  lemma UnsignedRoundTrip(n: nat, max: nat)
    requires n <= max
    ensures ParseUnsigned(Digits(n), max) == Some(n)
  {
    ValueOfDigits(n);
    assert IsDigit(Digits(n)[0]);
  }

  /** Printing then parsing an `i64` gives it back. */
  lemma I64RoundTrip(n: int)
    requires -I64_MAX - 1 <= n <= I64_MAX
    ensures ParseI64(PrintInt(n)) == Some(n)
  {
    if n < 0 {
      ValueOfDigits(-n);
      assert PrintInt(n)[1..] == Digits(-n);
    } else {
      ValueOfDigits(n);
      assert IsDigit(Digits(n)[0]);
      UnsignedRoundTrip(n, I64_MAX);
    }
  }

  /** Printed numbers are non-empty, contain no CR or LF and are ASCII. */
  lemma PrintedIsPlain(n: int)
    ensures PrintInt(n) != []
    ensures forall i :: 0 <= i < |PrintInt(n)| ==> 45 <= PrintInt(n)[i] <= 57
    ensures NoCrlf(PrintInt(n)) && Utf8(PrintInt(n))
  {
    ValueOfDigits(if n < 0 then -n else n);
    var s := PrintInt(n);
    forall i | 0 <= i < |s|
      ensures 45 <= s[i] <= 57
    {
      assert n >= 0 ==> IsDigit(Digits(n)[i]);
      assert n < 0 && i > 0 ==> IsDigit(Digits(-n)[i - 1]);
    }
    AsciiIsUtf8(s);
  }

  // ---------------------------------------------------------------- which texts are read as which number

  function Zeros(k: nat): Bytes {
    seq(k, _ => ZERO)
  }

  /** `d` is the number `v` as it is printed, after any number of leading zeros. */
  ghost predicate Numeral(d: Bytes, v: nat) {
    exists k: nat :: d == Zeros(k) + Digits(v)
  }

  lemma {:induction false} ValueAfterZeros(k: nat, s: Bytes)
    requires AllDigits(s)
    ensures AllDigits(Zeros(k) + s) && Value(Zeros(k) + s) == Value(s)
    decreases k + |s|
  {
    var d := Zeros(k) + s;
    if s != [] {
      ValueAfterZeros(k, s[..|s| - 1]);
      assert d[..|d| - 1] == Zeros(k) + s[..|s| - 1];
    } else if k > 0 {
      ValueAfterZeros(k - 1, []);
      assert d[..|d| - 1] == Zeros(k - 1) + [];
    }
  }

  lemma NumeralFacts(d: Bytes, v: nat)
    requires Numeral(d, v)
    ensures d != [] && AllDigits(d) && Value(d) == v
  {
    var k: nat :| d == Zeros(k) + Digits(v);
    ValueOfDigits(v);
    ValueAfterZeros(k, Digits(v));
  }

  /** One more digit behind a numeral. */
  lemma NumeralSnoc(front: Bytes, v: nat, last: byte)
    requires Numeral(front, v) && IsDigit(last)
    ensures Numeral(front + [last], 10 * v + (last - ZERO))
  {
    var k: nat :| front == Zeros(k) + Digits(v);
    var next: nat := 10 * v + (last - ZERO);
    if v == 0 {
      assert Zeros(k) + [ZERO] == Zeros(k + 1);
      assert front + [last] == Zeros(k + 1) + Digits(next);
    } else {
      assert next / 10 == v && next % 10 == last - ZERO;
      assert front + [last] == Zeros(k) + Digits(next);
    }
  }

  /** Every digit text is a numeral of its value. */
  lemma {:induction false} DigitsAreNumeral(d: Bytes)
    requires d != [] && AllDigits(d)
    ensures Numeral(d, Value(d))
  {
    var front, last := d[..|d| - 1], d[|d| - 1];
    assert IsDigit(last);
    if front == [] {
      assert Value(d) == last - ZERO;
      assert d == Zeros(0) + Digits(last - ZERO);
    } else {
      hide Numeral, Digits;
      DigitsAreNumeral(front);
      NumeralSnoc(front, Value(front), last);
      assert front + [last] == d;
    }
  }

  /** The text of an unsigned number: a numeral, perhaps after a plus sign. */
  ghost predicate DenotesUnsigned(s: Bytes, v: nat) {
    Numeral(s, v) || (s != [] && s[0] == PLUS && Numeral(s[1..], v))
  }

  /** `line` is a decimal text of the `i64` value `n`: a numeral, perhaps after a sign. */
  ghost predicate Denotes(line: Bytes, n: int) {
    && -I64_MAX - 1 <= n <= I64_MAX
    && ((n >= 0 && DenotesUnsigned(line, n))
        || (n <= 0 && line != [] && line[0] == MINUS && Numeral(line[1..], -n)))
  }

  /** `parse` of an unsigned type reads a text as `v` exactly when the text denotes `v` and `v` is in range. */
  lemma ParseUnsignedIff(s: Bytes, max: nat, v: nat)
    ensures ParseUnsigned(s, max) == Some(v) <==> v <= max && DenotesUnsigned(s, v)
  {
    hide Numeral, Value;
    if DenotesUnsigned(s, v) {
      if Numeral(s, v) {
        NumeralFacts(s, v);
        assert IsDigit(s[0]);
      } else {
        NumeralFacts(s[1..], v);
      }
    }
    if ParseUnsigned(s, max) == Some(v) {
      DigitsAreNumeral(if s[0] == PLUS then s[1..] else s);
    }
  }

  /** `parse::<i64>` reads a line as `n` exactly when the line denotes `n`. */
  lemma ParseI64Iff(line: Bytes, n: int)
    ensures ParseI64(line) == Some(n) <==> Denotes(line, n)
  {
    hide Numeral, Value, ParseUnsigned;
    if line != [] && line[0] == MINUS {
      MinusIsNotUnsigned(line);
      if Denotes(line, n) {
        NumeralFacts(line[1..], -n);
      }
      if ParseI64(line) == Some(n) {
        DigitsAreNumeral(line[1..]);
      }
    } else if n >= 0 {
      ParseUnsignedIff(line, I64_MAX, n);
    }
  }

  lemma MinusIsNotUnsigned(s: Bytes)
    requires s != [] && s[0] == MINUS
    ensures forall v :: !DenotesUnsigned(s, v)
  {
    hide Numeral;
    forall v | Numeral(s, v)
      ensures false
    {
      NumeralFacts(s, v);
    }
  }
}
