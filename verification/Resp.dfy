/** The RESP parser and encoder. */
module Resp {
  import opened Base
  import opened Decimal

  const DOLLAR: byte := 36
  const STAR: byte := 42
  const COLON: byte := 58

  datatype Frame =
    | Simple(text: Bytes)
    | Err(text: Bytes)
    | Integer(n: int)
    | Bulk(data: Bytes)
    | NullBulk
    | Array(frames: seq<Frame>)
    | NullArray

  datatype ParseError =
    | UnknownType(first: byte)
    | InvalidUtf8
    | InvalidInteger(line: Bytes)
    | InvalidBulkLength(line: Bytes)
    | InvalidArrayLength(line: Bytes)
    | MissingTrailingCrlf

  datatype ParseResult =
    | Complete(frame: Frame, consumed: nat)
    | Incomplete
    | Error(error: ParseError)

  /** Outcome of parsing a run of consecutive frames. */
  datatype ManyResult =
    | AllOf(frames: seq<Frame>, consumed: nat)
    | ManyIncomplete
    | ManyError(error: ParseError)

  // ---------------------------------------------------------------- encoder

  function Encode(f: Frame): Bytes
    decreases f, 0
  {
    match f
    case Simple(s) => [PLUS] + s + CRLF
    case Err(s) => [MINUS] + s + CRLF
    case Integer(n) => [COLON] + PrintInt(n) + CRLF
    case NullBulk => [DOLLAR] + PrintInt(-1) + CRLF
    case Bulk(d) => [DOLLAR] + PrintInt(|d|) + CRLF + d + CRLF
    case NullArray => [STAR] + PrintInt(-1) + CRLF
    case Array(fs) => [STAR] + PrintInt(|fs|) + CRLF + EncodeAll(fs)
  }

  function EncodeAll(fs: seq<Frame>): Bytes
    decreases fs, 1
  {
    if fs == [] then [] else Encode(fs[0]) + EncodeAll(fs[1..])
  }

  /** What a Rust `Frame` guarantees by its types (text is UTF-8, integers are `i64`,
      lengths fit `isize`), and on top of that: no CRLF inside a simple string or error. */
  predicate Encodable(f: Frame)
    decreases f, 0
  {
    match f
    case Simple(s) => NoCrlf(s) && Utf8(s)
    case Err(s) => NoCrlf(s) && Utf8(s)
    case Integer(n) => -I64_MAX - 1 <= n <= I64_MAX
    case NullBulk => true
    case Bulk(d) => |d| <= I64_MAX
    case NullArray => true
    case Array(fs) => |fs| <= I64_MAX && AllEncodable(fs)
  }

  predicate AllEncodable(fs: seq<Frame>)
    decreases fs, 1
  {
    fs == [] || (Encodable(fs[0]) && AllEncodable(fs[1..]))
  }

  /** `encode_into`: appends the frame to the buffer it is given. */
  method EncodeInto(f: Frame, buf: Bytes) returns (r: Bytes)
    ensures r == buf + Encode(f)
    decreases f, 0
  {
    hide PrintInt, EncodeAll;
    match f {
      case Simple(s) => r := EncodeLineInto(PLUS, s, buf);
      case Err(s) => r := EncodeLineInto(MINUS, s, buf);
      case Integer(n) => r := EncodeLineInto(COLON, PrintInt(n), buf);
      case NullBulk => r := EncodeLineInto(DOLLAR, PrintInt(-1), buf);
      case Bulk(d) =>
        r := EncodeLineInto(DOLLAR, PrintInt(|d|), buf);
        r := r + d;
        r := r + CRLF;
        assert r == buf + Encode(f);
      case NullArray => r := EncodeLineInto(STAR, PrintInt(-1), buf);
      case Array(fs) =>
        r := EncodeLineInto(STAR, PrintInt(|fs|), buf);
        r := EncodeAllInto(fs, r);
        assert r == buf + Encode(f);
    }
  }

  /** A type byte, text and CRLF, appended one after the other. */
  method EncodeLineInto(t: byte, text: Bytes, buf: Bytes) returns (r: Bytes)
    ensures r == buf + ([t] + text + CRLF)
  {
    r := buf + [t];
    r := r + text;
    r := r + CRLF;
  }

  method EncodeAllInto(fs: seq<Frame>, buf: Bytes) returns (r: Bytes)
    ensures r == buf + EncodeAll(fs)
    decreases fs, 1
  {
    r := buf;
    for i := 0 to |fs|
      invariant r + EncodeAll(fs[i..]) == buf + EncodeAll(fs)
    {
      ghost var before := r;
      r := EncodeInto(fs[i], r);
      assert fs[i..][1..] == fs[i + 1..];
      assert r + EncodeAll(fs[i + 1..]) == before + (Encode(fs[i]) + EncodeAll(fs[i + 1..]));
    }
  }

  // ---------------------------------------------------------------- parser

  /** The line after the type byte, when its CRLF has arrived. */
  function Line(b: Bytes): (r: Option<Bytes>)
    requires b != [] && b[0] != CR
    ensures r.Some? ==> |r.value| + 3 <= |b| && r.value == b[1..1 + |r.value|] && NoCrlf(r.value)
  {
    var p := FindCrlf(b);
    if p.None? then None
    else
      assert p.value != 0;
      var line := b[1..p.value];
      assert NoCrlf(line) by {
        forall i | 0 <= i < |line|
          ensures !CrlfAt(line, i)
        {
          assert !CrlfAt(b, i + 1);
        }
      }
      Some(line)
  }

  function Parse(b: Bytes): (r: ParseResult)
    ensures r.Complete? ==> 0 < r.consumed <= |b|
    decreases |b|, 0
  {
    if b == [] then Incomplete
    else if b[0] !in {PLUS, MINUS, COLON, DOLLAR, STAR} then Error(UnknownType(b[0]))
    else
      var l := Line(b);
      if l.None? then Incomplete
      else if !Utf8(l.value) then Error(InvalidUtf8)
      else if b[0] == PLUS then Complete(Simple(l.value), |l.value| + 3)
      else if b[0] == MINUS then Complete(Err(l.value), |l.value| + 3)
      else if b[0] == COLON then ParseInteger(l.value)
      else if b[0] == DOLLAR then ParseBulk(b, l.value)
      else ParseArray(b, l.value)
  }

  function ParseInteger(line: Bytes): (r: ParseResult)
    ensures r.Complete? ==> r.consumed == |line| + 3
  {
    var n := ParseI64(line);
    if n.None? then Error(InvalidInteger(line)) else Complete(Integer(n.value), |line| + 3)
  }

  function ParseBulk(b: Bytes, line: Bytes): (r: ParseResult)
    requires |line| + 3 <= |b|
    ensures r.Complete? ==> 0 < r.consumed <= |b|
  {
    var n := ParseI64(line);
    if n.None? then Error(InvalidBulkLength(line))
    else if n.value < 0 then Complete(NullBulk, |line| + 3)
    else
      var dataStart := |line| + 3;
      var dataEnd := dataStart + n.value;
      if |b| < dataEnd + 2 then Incomplete
      else if b[dataEnd] != CR || b[dataEnd + 1] != LF then Error(MissingTrailingCrlf)
      else Complete(Bulk(b[dataStart..dataEnd]), dataEnd + 2)
  }

  function ParseArray(b: Bytes, line: Bytes): (r: ParseResult)
    requires |line| + 3 <= |b|
    ensures r.Complete? ==> 0 < r.consumed <= |b|
    decreases |b|, 0, 0
  {
    var n := ParseI64(line);
    if n.None? then Error(InvalidArrayLength(line))
    else if n.value < 0 then Complete(NullArray, |line| + 3)
    else
      match ParseMany(b[|line| + 3..], n.value)
      case AllOf(fs, c) => Complete(Array(fs), |line| + 3 + c)
      case ManyIncomplete => Incomplete
      case ManyError(e) => Error(e)
  }

  function ParseMany(b: Bytes, n: nat): (r: ManyResult)
    ensures r.AllOf? ==> r.consumed <= |b| && |r.frames| == n
    decreases |b|, 1, n
  {
    if n == 0 then AllOf([], 0)
    else
      match Parse(b)
      case Incomplete => ManyIncomplete
      case Error(e) => ManyError(e)
      case Complete(f, c) =>
        match ParseMany(b[c..], n - 1)
        case AllOf(fs, c') => AllOf([f] + fs, c + c')
        case other => other
  }

  /** A result reached after `frames` were already decoded from the first `c` bytes. */
  function After(frames: seq<Frame>, c: nat, r: ManyResult): ManyResult {
    match r
    case AllOf(fs, c') => AllOf(frames + fs, c + c')
    case other => other
  }

  /** `parse`: the dispatch on the type byte. */
  method ParseFrame(b: Bytes) returns (r: ParseResult)
    ensures r == Parse(b)
    decreases |b|, 0, 1
  {
    if b == [] {
      return Incomplete;
    }
    if b[0] == PLUS || b[0] == MINUS {
      r := ParseTextFrame(b);
    } else if b[0] == COLON {
      r := ParseIntegerFrame(b);
    } else if b[0] == DOLLAR {
      r := ParseBulkFrame(b);
    } else if b[0] == STAR {
      r := ParseArrayFrame(b);
    } else {
      r := Error(UnknownType(b[0]));
    }
  }

  /** `parse_simple_string` and `parse_error` */
  method ParseTextFrame(b: Bytes) returns (r: ParseResult)
    requires b != [] && (b[0] == PLUS || b[0] == MINUS)
    ensures r == Parse(b)
  {
    var end := FindCrlf(b);
    if end.None? {
      return Incomplete;
    }
    var text := b[1..end.value];
    if !Utf8(text) {
      return Error(InvalidUtf8);
    }
    r := Complete(if b[0] == PLUS then Simple(text) else Err(text), end.value + 2);
  }

  /** `parse_integer` */
  method ParseIntegerFrame(b: Bytes) returns (r: ParseResult)
    requires b != [] && b[0] == COLON
    ensures r == Parse(b)
  {
    var end := FindCrlf(b);
    if end.None? {
      return Incomplete;
    }
    var text := b[1..end.value];
    if !Utf8(text) {
      return Error(InvalidUtf8);
    }
    var n := ParseI64(text);
    r := if n.None? then Error(InvalidInteger(text)) else Complete(Integer(n.value), end.value + 2);
  }

  /** `parse_bulk_string` */
  method ParseBulkFrame(b: Bytes) returns (r: ParseResult)
    requires b != [] && b[0] == DOLLAR
    ensures r == Parse(b)
  {
    hide Utf8, ParseI64;
    var lenEnd := FindCrlf(b);
    if lenEnd.None? {
      return Incomplete;
    }
    var text := b[1..lenEnd.value];
    if !Utf8(text) {
      return Error(InvalidUtf8);
    }
    var len := ParseI64(text);
    if len.None? {
      return Error(InvalidBulkLength(text));
    }
    if len.value < 0 {
      return Complete(NullBulk, lenEnd.value + 2);
    }
    var dataStart := lenEnd.value + 2;
    var dataEnd := dataStart + len.value;
    if |b| < dataEnd + 2 {
      return Incomplete;
    }
    if b[dataEnd] != CR || b[dataEnd + 1] != LF {
      return Error(MissingTrailingCrlf);
    }
    r := Complete(Bulk(b[dataStart..dataEnd]), dataEnd + 2);
  }

  /** `parse_array` */
  method ParseArrayFrame(b: Bytes) returns (r: ParseResult)
    requires b != [] && b[0] == STAR
    ensures r == Parse(b)
    decreases |b|, 0, 0
  {
    hide ParseMany;
    var lenEnd := FindCrlf(b);
    if lenEnd.None? {
      return Incomplete;
    }
    var text := b[1..lenEnd.value];
    if !Utf8(text) {
      return Error(InvalidUtf8);
    }
    var len := ParseI64(text);
    if len.None? {
      return Error(InvalidArrayLength(text));
    }
    if len.value < 0 {
      return Complete(NullArray, lenEnd.value + 2);
    }
    var many := ParseElements(b[lenEnd.value + 2..], len.value);
    match many {
      case AllOf(frames, c) => r := Complete(Array(frames), lenEnd.value + 2 + c);
      case ManyIncomplete => r := Incomplete;
      case ManyError(e) => r := Error(e);
    }
  }

  /** The loop of `parse_array`: push a frame, advance the offset. */
  method ParseElements(b: Bytes, len: nat) returns (r: ManyResult)
    ensures r == ParseMany(b, len)
    decreases |b|, 1
  {
    hide Parse, After;
    var offset, todo := 0, len;
    var frames: seq<Frame> := [];
    ghost var goal := ParseMany(b, len);
    assert b[0..] == b;
    AfterNothing(goal);
    while todo > 0
      invariant 0 <= offset <= |b|
      invariant goal == After(frames, offset, ParseMany(b[offset..], todo))
    {
      if offset >= |b| {
        assert b[offset..] == [];
        EmptyIncomplete();
        AfterFailure(b, offset, todo, frames);
        return ManyIncomplete;
      }
      var one := ParseFrame(b[offset..]);
      match one {
        case Complete(f, c) =>
          AfterStep(b, offset, todo, frames, one);
          frames, offset, todo := frames + [f], offset + c, todo - 1;
        case Incomplete =>
          AfterFailure(b, offset, todo, frames);
          return ManyIncomplete;
        case Error(e) =>
          AfterFailure(b, offset, todo, frames);
          return ManyError(e);
      }
    }
    AfterAll(b, offset, frames);
    r := AllOf(frames, offset);
  }

  lemma EmptyIncomplete()
    ensures Parse([]) == Incomplete
  {
  }

  lemma AfterFailure(b: Bytes, offset: nat, n: nat, frames: seq<Frame>)
    requires offset <= |b| && n > 0 && !Parse(b[offset..]).Complete?
    ensures After(frames, offset, ParseMany(b[offset..], n)) ==
            match Parse(b[offset..]) case Error(e) => ManyError(e) case _ => ManyIncomplete
  {
    hide Parse;
  }

  lemma AfterAll(b: Bytes, offset: nat, frames: seq<Frame>)
    requires offset <= |b|
    ensures After(frames, offset, ParseMany(b[offset..], 0)) == AllOf(frames, offset)
  {
    assert frames + [] == frames;
  }

  lemma AfterNothing(r: ManyResult)
    ensures After([], 0, r) == r
  {
    if r.AllOf? {
      assert [] + r.frames == r.frames;
    }
  }

  lemma AfterStep(b: Bytes, offset: nat, n: nat, frames: seq<Frame>, p: ParseResult)
    requires offset <= |b| && n > 0
    requires p == Parse(b[offset..]) && p.Complete?
    ensures After(frames, offset, ParseMany(b[offset..], n))
            == After(frames + [p.frame], offset + p.consumed, ParseMany(b[offset + p.consumed..], n - 1))
  {
    hide Parse;
    assert b[offset..][p.consumed..] == b[offset + p.consumed..];
    var tail := ParseMany(b[offset + p.consumed..], n - 1);
    if tail.AllOf? {
      assert frames + ([p.frame] + tail.frames) == frames + [p.frame] + tail.frames;
    }
  }

  // ---------------------------------------------------------------- chunking independence

  lemma LineExtend(b: Bytes, e: Bytes)
    requires b != [] && b[0] != CR
    requires Line(b).Some?
    ensures Line(b + e) == Line(b)
  {
    FindCrlfExtend(b, e);
    var p := FindCrlf(b).value;
    assert (b + e)[1..p] == b[1..p];
  }

  lemma BulkStable(b: Bytes, e: Bytes, line: Bytes)
    requires |line| + 3 <= |b|
    requires !ParseBulk(b, line).Incomplete?
    ensures ParseBulk(b + e, line) == ParseBulk(b, line)
  {
    var len := ParseI64(line);
    if len.Some? && len.value >= 0 {
      var dataStart := |line| + 3;
      var dataEnd := dataStart + len.value;
      assert (b + e)[dataStart..dataEnd] == b[dataStart..dataEnd];
    }
  }

  lemma {:induction false} ArrayStable(b: Bytes, e: Bytes, line: Bytes)
    requires |line| + 3 <= |b|
    requires !ParseArray(b, line).Incomplete?
    ensures ParseArray(b + e, line) == ParseArray(b, line)
    decreases |b|, 0, 0
  {
    hide ParseMany;
    var len := ParseI64(line);
    if len.Some? && len.value >= 0 {
      var k := |line| + 3;
      assert (b + e)[k..] == b[k..] + e;
      ManyStable(b[k..], e, len.value);
    }
  }

  /** Once a parse has an answer, more input does not change it. */
  lemma {:induction false} ParseStable(b: Bytes, e: Bytes)
    requires !Parse(b).Incomplete?
    ensures Parse(b + e) == Parse(b)
    decreases |b|, 0, 1
  {
    hide ParseBulk, ParseArray, Line, Utf8, ParseInteger;
    if b[0] in {PLUS, MINUS, COLON, DOLLAR, STAR} {
      LineExtend(b, e);
      var line := Line(b).value;
      if b[0] == DOLLAR && Utf8(line) {
        BulkStable(b, e, line);
      }
      if b[0] == STAR && Utf8(line) {
        ArrayStable(b, e, line);
      }
    }
  }

  lemma {:induction false} ManyStable(b: Bytes, e: Bytes, n: nat)
    requires !ParseMany(b, n).ManyIncomplete?
    ensures ParseMany(b + e, n) == ParseMany(b, n)
    decreases |b|, 1, n
  {
    if n > 0 {
      ParseStable(b, e);
      if Parse(b).Complete? {
        var c := Parse(b).consumed;
        assert (b + e)[c..] == b[c..] + e;
        ManyStable(b[c..], e, n - 1);
      }
    }
  }

  /** A reader that decodes as many frames as it can from what has arrived. */
  datatype Reader = Reader(frames: seq<Frame>, pending: Bytes, failed: Option<ParseError>)

  function Drain(r: Reader): (out: Reader)
    ensures out.failed.None? ==> Parse(out.pending).Incomplete?
    decreases |r.pending|
  {
    if r.failed.Some? then r
    else
      match Parse(r.pending)
      case Incomplete => r
      case Error(e) => r.(failed := Some(e))
      case Complete(f, c) => Drain(Reader(r.frames + [f], r.pending[c..], None))
  }

  function Feed(r: Reader, chunk: Bytes): Reader {
    Drain(r.(pending := r.pending + chunk))
  }

  function FeedAll(r: Reader, chunks: seq<Bytes>): Reader
    decreases |chunks|
  {
    if chunks == [] then r else FeedAll(Feed(r, chunks[0]), chunks[1..])
  }

  /** Draining early and again later is the same as draining once. */
  lemma {:induction false} DrainThenFeed(r: Reader, e: Bytes)
    ensures Feed(Drain(r), e) == Feed(r, e)
    decreases |r.pending|
  {
    if r.failed.None? && !Parse(r.pending).Incomplete? {
      ParseStable(r.pending, e);
      if Parse(r.pending).Complete? {
        var c := Parse(r.pending).consumed;
        var next := Reader(r.frames + [Parse(r.pending).frame], r.pending[c..], None);
        assert (r.pending + e)[c..] == next.pending + e;
        DrainThenFeed(next, e);
      }
    }
  }

  /** The frames decoded from a stream, the bytes left over and the error that stops it do not
      depend on how the stream was split into reads. */
  lemma {:induction false} ChunkingIndependence(r: Reader, chunks: seq<Bytes>)
    ensures Drain(FeedAll(r, chunks)) == Feed(r, Concat(chunks))
    decreases |chunks|
  {
    if chunks == [] {
      assert r.pending + [] == r.pending;
    } else {
      var rest := Concat(chunks[1..]);
      ChunkingIndependence(Feed(r, chunks[0]), chunks[1..]);
      DrainThenFeed(r.(pending := r.pending + chunks[0]), rest);
      assert r.pending + chunks[0] + rest == r.pending + Concat(chunks);
    }
  }

  // ---------------------------------------------------------------- round trip

  lemma LineOf(t: byte, line: Bytes, rest: Bytes)
    requires t != CR && NoCrlf(line)
    ensures Line([t] + line + CRLF + rest) == Some(line)
  {
    var whole := [t] + line;
    assert NoCrlf(whole) by {
      forall i | 0 <= i < |whole|
        ensures !CrlfAt(whole, i)
      {
        assert i > 0 ==> !CrlfAt(line, i - 1);
      }
    }
    FindCrlfLine(whole, rest);
    assert whole + CRLF + rest == [t] + line + CRLF + rest;
    assert ([t] + line + CRLF + rest)[1..|whole|] == line;
  }

  lemma TextRoundTrip(t: byte, text: Bytes, rest: Bytes)
    requires t == PLUS || t == MINUS
    requires NoCrlf(text) && Utf8(text)
    ensures Parse([t] + text + CRLF + rest) == Complete(if t == PLUS then Simple(text) else Err(text), |text| + 3)
  {
    LineOf(t, text, rest);
  }

  /** A printed number after a type byte is read back as that number. */
  lemma HeaderOf(t: byte, n: int, rest: Bytes)
    requires t != CR
    requires -I64_MAX - 1 <= n <= I64_MAX
    ensures Line([t] + PrintInt(n) + CRLF + rest) == Some(PrintInt(n))
    ensures Utf8(PrintInt(n)) && ParseI64(PrintInt(n)) == Some(n)
    ensures ([t] + PrintInt(n) + CRLF + rest)[|PrintInt(n)| + 3..] == rest
  {
    PrintedIsPlain(n);
    I64RoundTrip(n);
    LineOf(t, PrintInt(n), rest);
  }

  lemma BulkRoundTrip(d: Bytes, rest: Bytes)
    requires |d| <= I64_MAX
    ensures Parse(Encode(Bulk(d)) + rest) == Complete(Bulk(d), |Encode(Bulk(d))|)
  {
    hide PrintInt, ParseI64, Utf8, Line;
    var line := PrintInt(|d|);
    var b := [DOLLAR] + line + CRLF + (d + CRLF + rest);
    HeaderOf(DOLLAR, |d|, d + CRLF + rest);
    assert Encode(Bulk(d)) + rest == b;
    var start := |line| + 3;
    assert b[start..start + |d|] == d;
    assert b[start + |d|] == CR && b[start + |d| + 1] == LF;
    assert Parse(b) == ParseBulk(b, line);
  }

  /** Encoding then parsing gives the frame back and consumes exactly its bytes, whatever follows. */
  lemma {:induction false} RoundTrip(f: Frame, rest: Bytes)
    requires Encodable(f)
    ensures Parse(Encode(f) + rest) == Complete(f, |Encode(f)|)
    decreases f, 0
  {
    hide Utf8, ParseI64, PrintInt, Line;
    match f
    case Simple(s) => TextRoundTrip(PLUS, s, rest);
    case Err(s) => TextRoundTrip(MINUS, s, rest);
    case Integer(n) => HeaderOf(COLON, n, rest);
    case NullBulk => HeaderOf(DOLLAR, -1, rest);
    case Bulk(d) => BulkRoundTrip(d, rest);
    case NullArray => HeaderOf(STAR, -1, rest);
    case Array(fs) =>
      ManyRoundTrip(fs, rest);
      ArrayRoundTrip(fs, rest);
  }

  lemma ArrayRoundTrip(fs: seq<Frame>, rest: Bytes)
    requires |fs| <= I64_MAX
    requires ParseMany(EncodeAll(fs) + rest, |fs|) == AllOf(fs, |EncodeAll(fs)|)
    ensures Parse(Encode(Array(fs)) + rest) == Complete(Array(fs), |Encode(Array(fs))|)
  {
    hide PrintInt, ParseI64, Utf8, Line, EncodeAll, ParseMany;
    var line := PrintInt(|fs|);
    var b := [STAR] + line + CRLF + (EncodeAll(fs) + rest);
    HeaderOf(STAR, |fs|, EncodeAll(fs) + rest);
    assert Encode(Array(fs)) + rest == b;
    assert Parse(b) == ParseArray(b, line);
  }

  lemma {:induction false} ManyRoundTrip(fs: seq<Frame>, rest: Bytes)
    requires AllEncodable(fs)
    ensures ParseMany(EncodeAll(fs) + rest, |fs|) == AllOf(fs, |EncodeAll(fs)|)
    decreases fs, 1
  {
    hide Parse, Encode;
    if fs != [] {
      var tail := EncodeAll(fs[1..]) + rest;
      assert EncodeAll(fs) + rest == Encode(fs[0]) + tail;
      RoundTrip(fs[0], tail);
      assert (Encode(fs[0]) + tail)[|Encode(fs[0])|..] == tail;
      ManyRoundTrip(fs[1..], rest);
      assert [fs[0]] + fs[1..] == fs;
    }
  }

  /** A frame cut short anywhere is reported as incomplete, never as an error or another frame. */
  lemma StrictPrefixIncomplete(f: Frame, p: nat)
    requires Encodable(f)
    requires p < |Encode(f)|
    ensures Parse(Encode(f)[..p]) == Incomplete
  {
    var b := Encode(f)[..p];
    RoundTrip(f, []);
    assert b + Encode(f)[p..] == Encode(f) + [];
    if !Parse(b).Incomplete? {
      ParseStable(b, Encode(f)[p..]);
    }
  }

  /** Everything the parser returns is encodable ... */
  lemma {:induction false} ParsedIsEncodable(b: Bytes)
    requires Parse(b).Complete?
    ensures Encodable(Parse(b).frame)
    decreases |b|, 0
  {
    if b[0] == STAR {
      var line := Line(b).value;
      if ParseI64(line).value >= 0 {
        ManyEncodable(b[|line| + 3..], ParseI64(line).value);
      }
    }
  }

  lemma {:induction false} ManyEncodable(b: Bytes, n: nat)
    requires ParseMany(b, n).AllOf?
    ensures AllEncodable(ParseMany(b, n).frames)
    decreases |b|, 1, n
  {
    hide Parse, Encodable;
    if n > 0 {
      ParsedIsEncodable(b);
      var c := Parse(b).consumed;
      ManyEncodable(b[c..], n - 1);
      assert ParseMany(b, n).frames[1..] == ParseMany(b[c..], n - 1).frames;
    }
  }

  /** ... so re-encoding a parsed frame is a canonical form: it parses back to the same frame,
      and two inputs denote the same frame exactly when their canonical forms are equal. */
  lemma CanonicalForm(b: Bytes, b': Bytes, rest: Bytes)
    requires Parse(b).Complete? && Parse(b').Complete?
    ensures var f := Parse(b).frame; Parse(Encode(f) + rest) == Complete(f, |Encode(f)|)
    ensures Encode(Parse(b).frame) == Encode(Parse(b').frame) <==> Parse(b).frame == Parse(b').frame
  {
    ParsedIsEncodable(b);
    ParsedIsEncodable(b');
    RoundTrip(Parse(b).frame, rest);
    RoundTrip(Parse(b).frame, []);
    RoundTrip(Parse(b').frame, []);
  }
}
