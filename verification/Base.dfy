/** Bytes, optional values, machine-word arithmetic and the line scanner that both
    protocol parsers share. */
module Base {

  type byte = x: int | 0 <= x < 256
  type Bytes = seq<byte>

  datatype Option<+T> = None | Some(value: T)

  const CR: byte := 13
  const LF: byte := 10
  const CRLF: Bytes := [CR, LF]

  /** 2^64: `u64` and `usize` are 64 bits wide. */
  const U64: int := 0x1_0000_0000_0000_0000

  /** The result of a wrapping 64-bit operation whose exact value is `x`. */
  function Wrap(x: int): int {
    x % U64
  }

  /** An inner wrap makes no difference to an outer one. */
  lemma WrapInner(a: int, b: int)
    ensures Wrap(a + Wrap(b)) == Wrap(a + b)
    ensures Wrap(Wrap(a) + b) == Wrap(a + b)
    ensures Wrap(Wrap(a) - b) == Wrap(a - b)
    ensures Wrap(a - Wrap(b)) == Wrap(a - b)
  {
    WrapShift(a + Wrap(b), b / U64);
    WrapShift(a - Wrap(b), -(b / U64));
    WrapShift(Wrap(a) + b, a / U64);
    WrapShift(Wrap(a) - b, a / U64);
  }

  lemma WrapShift(a: int, q: int)
    ensures Wrap(a + q * U64) == Wrap(a)
  {
  }

  lemma WrapId(x: int)
    requires 0 <= x < U64
    ensures Wrap(x) == x
  {
  }

  lemma WrapZero(x: int)
    requires -U64 < x < U64
    ensures Wrap(x) == 0 <==> x == 0
  {
  }

  function Min(a: int, b: int): int {
    if a <= b then a else b
  }

  function Max(a: int, b: int): int {
    if a >= b then a else b
  }

  function Concat(parts: seq<Bytes>): Bytes {
    if parts == [] then [] else parts[0] + Concat(parts[1..])
  }

  lemma {:induction false} ConcatSnoc(parts: seq<Bytes>, part: Bytes)
    ensures Concat(parts + [part]) == Concat(parts) + part
    decreases |parts|
  {
    if parts != [] {
      assert (parts + [part])[1..] == parts[1..] + [part];
      ConcatSnoc(parts[1..], part);
    }
  }

  predicate CrlfAt(b: Bytes, i: int) {
    0 <= i && i + 1 < |b| && b[i] == CR && b[i + 1] == LF
  }

  predicate NoCrlf(b: Bytes) {
    forall i :: 0 <= i < |b| ==> !CrlfAt(b, i)
  }

  /** The position of the first CRLF at or after `from`. */
  function FindCrlfFrom(b: Bytes, from: nat): (r: Option<nat>)
    ensures r.Some? ==> from <= r.value && CrlfAt(b, r.value) && forall j :: from <= j < r.value ==> !CrlfAt(b, j)
    ensures r.None? ==> forall j :: from <= j ==> !CrlfAt(b, j)
    decreases |b| - from
  {
    if from + 1 >= |b| then None
    else if CrlfAt(b, from) then Some(from)
    else FindCrlfFrom(b, from + 1)
  }

  function FindCrlf(b: Bytes): Option<nat> {
    FindCrlfFrom(b, 0)
  }

  lemma FindCrlfIs(b: Bytes, p: nat)
    requires CrlfAt(b, p)
    requires forall j :: 0 <= j < p ==> !CrlfAt(b, j)
    ensures FindCrlf(b) == Some(p)
  {
  }

  /** More input never moves the first CRLF. */
  lemma FindCrlfExtend(b: Bytes, e: Bytes)
    requires FindCrlf(b).Some?
    ensures FindCrlf(b + e) == FindCrlf(b)
  {
    var p := FindCrlf(b).value;
    forall j | 0 <= j < p
      ensures !CrlfAt(b + e, j)
    {
      assert !CrlfAt(b, j);
    }
    FindCrlfIs(b + e, p);
  }

  /** A line without CRLF ends exactly where its terminator was written. */
  lemma FindCrlfLine(line: Bytes, rest: Bytes)
    requires NoCrlf(line)
    ensures FindCrlf(line + CRLF + rest) == Some(|line|)
  {
    var b := line + CRLF + rest;
    forall j | 0 <= j < |line|
      ensures !CrlfAt(b, j)
    {
      assert !CrlfAt(line, j);
    }
    FindCrlfIs(b, |line|);
  }

  predicate IsCont(x: byte) {
    0x80 <= x <= 0xBF
  }

  /** The length of the well-formed UTF-8 sequence `s` starts with (Table 3-7 of the Unicode Standard);
      0 when there is none. */
  function CharLen(s: Bytes): (r: nat)
    ensures r <= |s|
  {
    if s == [] then 0
    else if s[0] < 0x80 then 1
    else if 0xC2 <= s[0] <= 0xDF then
      if |s| >= 2 && IsCont(s[1]) then 2 else 0
    else if 0xE0 <= s[0] <= 0xEF then
      if && |s| >= 3
         && (if s[0] == 0xE0 then 0xA0 else 0x80) <= s[1] <= (if s[0] == 0xED then 0x9F else 0xBF)
         && IsCont(s[2])
      then 3 else 0
    else if 0xF0 <= s[0] <= 0xF4 then
      if && |s| >= 4
         && (if s[0] == 0xF0 then 0x90 else 0x80) <= s[1] <= (if s[0] == 0xF4 then 0x8F else 0xBF)
         && IsCont(s[2]) && IsCont(s[3])
      then 4 else 0
    else 0
  }

  /** `str::from_utf8` succeeds. */
  predicate Utf8(s: Bytes) {
    s == [] || (CharLen(s) > 0 && Utf8(s[CharLen(s)..]))
  }

  lemma CharLenExtend(a: Bytes, b: Bytes)
    requires CharLen(a) > 0
    ensures CharLen(a + b) == CharLen(a)
  {
  }

  lemma {:induction false} Utf8Concat(a: Bytes, b: Bytes)
    requires Utf8(a) && Utf8(b)
    ensures Utf8(a + b)
    decreases |a|
  {
    hide CharLen;
    if a == [] {
      assert a + b == b;
    } else {
      var k := CharLen(a);
      CharLenExtend(a, b);
      assert (a + b)[k..] == a[k..] + b;
      Utf8Concat(a[k..], b);
    }
  }

  lemma {:induction false} AsciiIsUtf8(s: Bytes)
    requires forall i :: 0 <= i < |s| ==> s[i] < 0x80
    ensures Utf8(s)
  {
    if s != [] {
      AsciiIsUtf8(s[1..]);
    }
  }
}
