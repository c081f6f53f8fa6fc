/** Which stored values incr and decr take for a number: a decimal text with white space around it. */
module RequestNumbers {
  import opened Base
  import opened Decimal
  import opened Memcached
  import opened Request

  predicate AllSpaces(chars: seq<Bytes>) {
    forall i :: 0 <= i < |chars| ==> SpaceChar(chars[i])
  }

  /** `v` is `core` with any white-space characters before and behind it. */
  ghost predicate Padded(v: Bytes, core: Bytes) {
    exists before, behind :: AllSpaces(before) && AllSpaces(behind) && v == Concat(before) + core + Concat(behind)
  }

  // ---------------------------------------------------------------- white space is trimmed

  lemma SpaceInFront(ch: Bytes, rest: Bytes)
    requires SpaceChar(ch)
    ensures TrimStart(ch + rest) == TrimStart(rest) && Utf8(ch)
  {
    assert CharLen(ch) == |ch|;
    CharLenExtend(ch, rest);
    assert (ch + rest)[..|ch|] == ch && (ch + rest)[|ch|..] == rest;
    assert ch[|ch|..] == [];
  }

  lemma {:induction false} SpacesInFront(chars: seq<Bytes>, rest: Bytes)
    requires AllSpaces(chars)
    ensures TrimStart(Concat(chars) + rest) == TrimStart(rest) && Utf8(Concat(chars))
    decreases |chars|
  {
    hide SpaceChar, TrimStart, Utf8;
    if chars == [] {
      assert Concat(chars) + rest == rest;
      AsciiIsUtf8([]);
    } else {
      SpacesInFront(chars[1..], rest);
      SpaceInFront(chars[0], Concat(chars[1..]) + rest);
      Utf8Concat(chars[0], Concat(chars[1..]));
      assert Concat(chars) + rest == chars[0] + (Concat(chars[1..]) + rest);
    }
  }

  lemma SpaceBehind(s: Bytes, ch: Bytes)
    requires SpaceChar(ch)
    ensures SpaceAtEnd(s + ch) == |ch| > 0
  {
    var t := s + ch;
    assert t[|t| - |ch|..] == ch;
    if |ch| > 1 {
      assert t[|t| - 1..] == [ch[|ch| - 1]];
    }
    if |ch| > 2 {
      assert t[|t| - 2..] == [ch[1], ch[2]];
    }
  }

  lemma {:induction false} SpacesBehind(s: Bytes, chars: seq<Bytes>)
    requires AllSpaces(chars)
    ensures TrimEnd(s + Concat(chars)) == TrimEnd(s)
    decreases |chars|
  {
    hide SpaceChar, SpaceAtEnd;
    if chars == [] {
      assert s + Concat(chars) == s;
    } else {
      var front, last := chars[..|chars| - 1], chars[|chars| - 1];
      assert chars == front + [last];
      ConcatSnoc(front, last);
      assert s + Concat(chars) == s + Concat(front) + last;
      SpaceBehind(s + Concat(front), last);
      assert (s + Concat(front) + last)[..|s + Concat(front)|] == s + Concat(front);
      SpacesBehind(s, front);
    }
  }

  lemma DigitsAreVisible(d: Bytes)
    requires d != [] && AllDigits(d)
    ensures forall i :: 0 <= i < |d| ==> 33 <= d[i] < 0x80
  {
    assert forall i :: 0 <= i < |d| ==> IsDigit(d[i]);
  }

  /** A number text begins and ends in a visible ASCII character. */
  lemma NumberEnds(core: Bytes, n: nat)
    requires DenotesUnsigned(core, n)
    ensures core != [] && 33 <= core[0] < 0x80 && 33 <= core[|core| - 1] < 0x80 && Utf8(core)
  {
    hide Numeral, Utf8, AllDigits, Value;
    if Numeral(core, n) {
      NumeralFacts(core, n);
      DigitsAreVisible(core);
    } else {
      var d := core[1..];
      NumeralFacts(d, n);
      DigitsAreVisible(d);
      assert core == [PLUS] + d;
    }
    AsciiIsUtf8(core);
  }

  lemma NoSpaceAtEnds(core: Bytes, rest: Bytes)
    requires core != [] && 33 <= core[0] < 0x80 && 33 <= core[|core| - 1] < 0x80
    ensures TrimStart(core + rest) == core + rest && TrimEnd(core) == core
  {
    NoSpaceAround(core);
    var s := core + rest;
    assert FirstChar(s) == 1 && s[..1] == [s[0]];
    hide SpaceAtEnd, FirstChar;
  }

  lemma PaddedIsNumber(before: seq<Bytes>, core: Bytes, behind: seq<Bytes>, n: nat)
    requires AllSpaces(before) && AllSpaces(behind) && DenotesUnsigned(core, n) && n <= U64_MAX
    ensures NumberIn(Concat(before) + core + Concat(behind)) == Some(n)
  {
    hide Utf8, ParseUnsigned, TrimStart, TrimEnd, DenotesUnsigned, AllSpaces, Concat;
    NumberEnds(core, n);
    ParseUnsignedIff(core, U64_MAX, n);
    var tail := core + Concat(behind);
    NoSpaceAtEnds(core, Concat(behind));
    SpacesInFront(before, tail);
    SpacesInFront(behind, []);
    assert Concat(before) + core + Concat(behind) == Concat(before) + tail;
    SpacesBehind(core, behind);
    Utf8Concat(core, Concat(behind));
    Utf8Concat(Concat(before), tail);
  }

  // ---------------------------------------------------------------- only white space is trimmed

  lemma ConcatCons(part: Bytes, parts: seq<Bytes>)
    ensures Concat([part] + parts) == part + Concat(parts)
  {
    assert ([part] + parts)[1..] == parts;
  }

  lemma {:induction false} TrimmedFront(s: Bytes) returns (chars: seq<Bytes>)
    ensures AllSpaces(chars) && s == Concat(chars) + TrimStart(s)
    decreases |s|
  {
    if s != [] && SpaceChar(s[..FirstChar(s)]) {
      var first, tail := s[..FirstChar(s)], s[FirstChar(s)..];
      assert TrimStart(s) == TrimStart(tail) && s == first + tail;
      hide SpaceChar, FirstChar, Concat, TrimStart;
      var rest := TrimmedFront(tail);
      chars := [first] + rest;
      ConcatCons(first, rest);
      Associate(first, Concat(rest), TrimStart(tail));
    } else {
      chars := [];
      NothingBefore(s);
    }
  }

  lemma Associate(a: Bytes, b: Bytes, c: Bytes)
    ensures a + (b + c) == a + b + c
  {
  }

  lemma NothingBefore(s: Bytes)
    ensures s == Concat([]) + s
  {
  }

  lemma LastIsSpace(s: Bytes)
    requires SpaceAtEnd(s) > 0
    ensures SpaceChar(s[|s| - SpaceAtEnd(s)..]) && s == s[..|s| - SpaceAtEnd(s)] + s[|s| - SpaceAtEnd(s)..]
  {
    hide SpaceChar;
  }

  lemma {:induction false} TrimmedEnd(s: Bytes) returns (chars: seq<Bytes>)
    ensures AllSpaces(chars) && s == TrimEnd(s) + Concat(chars)
    decreases |s|
  {
    hide SpaceChar, SpaceAtEnd, Concat;
    chars := [];
    if SpaceAtEnd(s) > 0 {
      LastIsSpace(s);
      var rest, last := s[..|s| - SpaceAtEnd(s)], s[|s| - SpaceAtEnd(s)..];
      var front := TrimmedEnd(rest);
      chars := front + [last];
      ConcatSnoc(front, last);
      assert TrimEnd(rest) + Concat(front) + last == TrimEnd(rest) + Concat(chars);
    } else {
      NothingBehind(s);
    }
  }

  lemma NothingBehind(s: Bytes)
    ensures s == s + Concat([])
  {
  }

  /** incr and decr take a value for the number `n` if and only if it is a decimal text of `n`, which fits 64 bits, with
      any white space around it. */
  lemma NumberInIff(v: Bytes, n: nat)
    ensures NumberIn(v) == Some(n) <==> n <= U64_MAX && exists core :: DenotesUnsigned(core, n) && Padded(v, core)
  {
    hide DenotesUnsigned, TrimStart, TrimEnd, ParseUnsigned, AllSpaces;
    if NumberIn(v) == Some(n) {
      var before := TrimmedFront(v);
      var behind := TrimmedEnd(TrimStart(v));
      var core := TrimEnd(TrimStart(v));
      ParseUnsignedIff(core, U64_MAX, n);
      assert v == Concat(before) + core + Concat(behind);
      assert Padded(v, core);
    }
    if n <= U64_MAX && exists core :: DenotesUnsigned(core, n) && Padded(v, core) {
      var core :| DenotesUnsigned(core, n) && Padded(v, core);
      var before, behind :| AllSpaces(before) && AllSpaces(behind) && v == Concat(before) + core + Concat(behind);
      PaddedIsNumber(before, core, behind, n);
    }
  }
}
