/** The RESP wire format as a relation between frames and bytes, defined without the parser,
    and the parser's outcome decided by it: which bytes are a frame, which are broken, which are short. */
module RespWire {
  import opened Base
  import opened Decimal
  import opened Resp

  // ---------------------------------------------------------------- number lines

  /** A number line is ASCII without CRLF, so nothing in it ends the line early. */
  lemma DenotesIsPlain(line: Bytes, n: int)
    requires Denotes(line, n)
    ensures NoCrlf(line) && Utf8(line)
  {
    hide Utf8;
    ParseI64Iff(line, n);
    forall i | 0 <= i < |line|
      ensures 43 <= line[i] <= 57
    {
      if line[0] == PLUS || line[0] == MINUS {
        assert i > 0 ==> IsDigit(line[1..][i - 1]);
      } else {
        assert IsDigit(line[i]);
      }
    }
    AsciiIsUtf8(line);
  }

  ghost predicate IsNumber(line: Bytes) {
    exists n :: Denotes(line, n)
  }

  lemma IsNumberIff(line: Bytes)
    ensures IsNumber(line) <==> ParseI64(line).Some?
  {
    hide Denotes;
    if IsNumber(line) {
      var n :| Denotes(line, n);
      ParseI64Iff(line, n);
    }
    if ParseI64(line).Some? {
      ParseI64Iff(line, ParseI64(line).value);
    }
  }

  // ---------------------------------------------------------------- frames on the wire

  /** A type byte, a line and its terminator. */
  function Head(t: byte, line: Bytes): Bytes {
    [t] + line + CRLF
  }

  /** The bytes `w` are the frame `f`. */
  ghost predicate Wire(f: Frame, w: Bytes)
    decreases f, 0
  {
    match f
    case Simple(s) => NoCrlf(s) && Utf8(s) && w == Head(PLUS, s)
    case Err(s) => NoCrlf(s) && Utf8(s) && w == Head(MINUS, s)
    case Integer(n) => exists line :: Denotes(line, n) && w == Head(COLON, line)
    case NullBulk => exists line, n :: n < 0 && Denotes(line, n) && w == Head(DOLLAR, line)
    case Bulk(d) => exists line :: Denotes(line, |d|) && w == Head(DOLLAR, line) + (d + CRLF)
    case NullArray => exists line, n :: n < 0 && Denotes(line, n) && w == Head(STAR, line)
    case Array(fs) => exists line, body ::
      Denotes(line, |fs|) && w == Head(STAR, line) + body && WireAll(fs, body)
  }

  /** The bytes `w` are the frames `fs`, one after the other. */
  ghost predicate WireAll(fs: seq<Frame>, w: Bytes)
    decreases fs, 1
  {
    if fs == [] then w == []
    else exists k :: 0 <= k <= |w| && Wire(fs[0], w[..k]) && WireAll(fs[1..], w[k..])
  }

  /** A complete line after its type byte is the line the parser reads. */
  lemma HeadIsLine(t: byte, line: Bytes, rest: Bytes)
    requires t != CR && NoCrlf(line)
    ensures Line(Head(t, line) + rest) == Some(line)
    ensures (Head(t, line) + rest)[0] == t && (Head(t, line) + rest)[|line| + 3..] == rest
  {
    LineOf(t, line, rest);
    assert Head(t, line) + rest == [t] + line + CRLF + rest;
  }

  /** The parser's line is a complete line at the front of the input. */
  lemma LineIsHead(b: Bytes)
    requires b != [] && b[0] != CR && Line(b).Some?
    ensures var line := Line(b).value; NoCrlf(line) && b == Head(b[0], line) + b[|line| + 3..]
  {
    var line := Line(b).value;
    var p := FindCrlf(b).value;
    assert p == |line| + 1 && b[p] == CR && b[p + 1] == LF;
    assert b[..|line| + 3] == Head(b[0], line);
  }

  /** Completeness: a frame's bytes parse to that frame, whatever follows them. */
  lemma {:induction false} WireParses(f: Frame, w: Bytes, rest: Bytes)
    requires Wire(f, w)
    ensures Parse(w + rest) == Complete(f, |w|)
    decreases f, 0
  {
    hide Parse, ParseI64, Utf8, Line, Denotes, WireAll;
    match f
    case Simple(s) => TextParses(PLUS, s, rest);
    case Err(s) => TextParses(MINUS, s, rest);
    case Integer(n) =>
      var line :| Denotes(line, n) && w == Head(COLON, line);
      NumberParses(COLON, line, n, rest);
    case NullBulk =>
      var line, n :| n < 0 && Denotes(line, n) && w == Head(DOLLAR, line);
      NumberParses(DOLLAR, line, n, rest);
    case NullArray =>
      var line, n :| n < 0 && Denotes(line, n) && w == Head(STAR, line);
      NumberParses(STAR, line, n, rest);
    case Bulk(d) =>
      var line :| Denotes(line, |d|) && w == Head(DOLLAR, line) + (d + CRLF);
      BulkParses(line, d, rest);
    case Array(fs) =>
      var line, body :| Denotes(line, |fs|) && w == Head(STAR, line) + body && WireAll(fs, body);
      WireAllParses(fs, body, rest);
      ArrayParses(line, fs, body, rest);
  }

  lemma TextParses(t: byte, text: Bytes, rest: Bytes)
    requires (t == PLUS || t == MINUS) && NoCrlf(text) && Utf8(text)
    ensures Parse(Head(t, text) + rest) == Complete(if t == PLUS then Simple(text) else Err(text), |text| + 3)
  {
    hide Line, Utf8;
    HeadIsLine(t, text, rest);
  }

  /** What a frame announced by the number `n` parses to, when nothing but the line matters. */
  lemma NumberParses(t: byte, line: Bytes, n: int, rest: Bytes)
    requires t == COLON || (n < 0 && (t == DOLLAR || t == STAR))
    requires Denotes(line, n)
    ensures Parse(Head(t, line) + rest) ==
            Complete(if t == COLON then Integer(n) else if t == DOLLAR then NullBulk else NullArray, |line| + 3)
  {
    hide Line, Utf8, ParseI64, Denotes;
    DenotesIsPlain(line, n);
    ParseI64Iff(line, n);
    HeadIsLine(t, line, rest);
  }

  lemma BulkParses(line: Bytes, d: Bytes, rest: Bytes)
    requires Denotes(line, |d|)
    ensures var w := Head(DOLLAR, line) + (d + CRLF); Parse(w + rest) == Complete(Bulk(d), |w|)
  {
    hide Line, Utf8, ParseI64, Denotes;
    DenotesIsPlain(line, |d|);
    ParseI64Iff(line, |d|);
    var tail := d + CRLF + rest;
    var b := Head(DOLLAR, line) + tail;
    HeadIsLine(DOLLAR, line, tail);
    assert Head(DOLLAR, line) + (d + CRLF) + rest == b;
    var start := |line| + 3;
    assert b[start..start + |d|] == d;
    assert b[start + |d|] == CR && b[start + |d| + 1] == LF;
    assert Parse(b) == ParseBulk(b, line);
  }

  lemma ArrayParses(line: Bytes, fs: seq<Frame>, body: Bytes, rest: Bytes)
    requires Denotes(line, |fs|)
    requires ParseMany(body + rest, |fs|) == AllOf(fs, |body|)
    ensures var w := Head(STAR, line) + body; Parse(w + rest) == Complete(Array(fs), |w|)
  {
    hide Line, Utf8, ParseI64, Denotes, ParseMany;
    DenotesIsPlain(line, |fs|);
    ParseI64Iff(line, |fs|);
    var b := Head(STAR, line) + (body + rest);
    HeadIsLine(STAR, line, body + rest);
    assert Head(STAR, line) + body + rest == b;
    assert Parse(b) == ParseArray(b, line);
  }

  lemma {:induction false} WireAllParses(fs: seq<Frame>, w: Bytes, rest: Bytes)
    requires WireAll(fs, w)
    ensures ParseMany(w + rest, |fs|) == AllOf(fs, |w|)
    decreases fs, 1
  {
    hide Parse, Wire;
    if fs != [] {
      var k :| 0 <= k <= |w| && Wire(fs[0], w[..k]) && WireAll(fs[1..], w[k..]);
      assert w + rest == w[..k] + (w[k..] + rest);
      WireParses(fs[0], w[..k], w[k..] + rest);
      assert (w + rest)[k..] == w[k..] + rest;
      WireAllParses(fs[1..], w[k..], rest);
      assert [fs[0]] + fs[1..] == fs;
    }
  }

  /** Soundness: what the parser accepts is the frame it returns. */
  lemma {:induction false} ParsedIsWire(b: Bytes)
    requires Parse(b).Complete?
    ensures Wire(Parse(b).frame, b[..Parse(b).consumed])
    decreases |b|, 0
  {
    hide ParseI64, Utf8, Line, Denotes, WireAll, ParseMany;
    LineIsHead(b);
    var line := Line(b).value;
    var w := b[..Parse(b).consumed];
    if b[0] == PLUS || b[0] == MINUS {
      assert w == Head(b[0], line);
    } else {
      var n := ParseI64(line).value;
      ParseI64Iff(line, n);
      if b[0] == COLON || n < 0 {
        assert w == Head(b[0], line);
      } else if b[0] == DOLLAR {
        var d := Parse(b).frame.data;
        assert w == Head(DOLLAR, line) + (d + CRLF);
      } else {
        var k := |line| + 3;
        ManyIsWire(b[k..], n);
        var body := b[k..][..ParseMany(b[k..], n).consumed];
        assert w == Head(STAR, line) + body;
      }
    }
  }

  lemma {:induction false} ManyIsWire(b: Bytes, n: nat)
    requires ParseMany(b, n).AllOf?
    ensures WireAll(ParseMany(b, n).frames, b[..ParseMany(b, n).consumed])
    decreases |b|, 1, n
  {
    hide Parse, Wire;
    if n > 0 {
      ParsedIsWire(b);
      var c := Parse(b).consumed;
      ManyIsWire(b[c..], n - 1);
      var w := b[..ParseMany(b, n).consumed];
      assert w[..c] == b[..c];
      assert w[c..] == b[c..][..ParseMany(b[c..], n - 1).consumed];
      assert ParseMany(b, n).frames[1..] == ParseMany(b[c..], n - 1).frames;
    }
  }

  /** The parser completes with `f` after `c` bytes exactly when those bytes are `f` on the wire. */
  lemma ParseIff(b: Bytes, f: Frame, c: nat)
    ensures Parse(b) == Complete(f, c) <==> c <= |b| && Wire(f, b[..c])
  {
    hide Parse, Wire;
    if Parse(b) == Complete(f, c) {
      ParsedIsWire(b);
    }
    if c <= |b| && Wire(f, b[..c]) {
      WireParses(f, b[..c], b[c..]);
      assert b[..c] + b[c..] == b;
    }
  }

  /** The encoder writes the wire format ... */
  lemma EncodedIsWire(f: Frame)
    requires Encodable(f)
    ensures Wire(f, Encode(f))
  {
    hide Parse, Wire, Encode;
    RoundTrip(f, []);
    ParsedIsWire(Encode(f) + []);
    assert (Encode(f) + [])[..|Encode(f)|] == Encode(f);
  }

  /** ... which is unambiguous: no frame's bytes are another's, or the beginning of another's. */
  lemma PrefixFree(f: Frame, w: Bytes, f': Frame, w': Bytes)
    requires Wire(f, w) && Wire(f', w') && w <= w'
    ensures f == f' && w == w'
  {
    hide Parse, Wire;
    WireParses(f, w, w'[|w|..]);
    WireParses(f', w', []);
    assert w + w'[|w|..] == w' + [];
  }

  // ---------------------------------------------------------------- broken and short input

  const TYPES: set<byte> := {PLUS, MINUS, COLON, DOLLAR, STAR}

  /** `b` starts with the complete line `line` behind a known type byte. */
  predicate Starts(b: Bytes, line: Bytes) {
    && |line| + 3 <= |b|
    && b[0] in TYPES
    && NoCrlf(line)
    && b[..|line| + 3] == Head(b[0], line)
  }

  /** What follows that line. */
  function Rest(b: Bytes, line: Bytes): Bytes
    requires |line| + 3 <= |b|
  {
    b[|line| + 3..]
  }

  /** The line itself is not text, or not the number its type byte calls for. */
  ghost predicate BrokenLine(t: byte, line: Bytes, e: ParseError) {
    if !Utf8(line) then e == InvalidUtf8
    else
      && !IsNumber(line)
      && ((t == COLON && e == InvalidInteger(line))
          || (t == DOLLAR && e == InvalidBulkLength(line))
          || (t == STAR && e == InvalidArrayLength(line)))
  }

  /** `b` starts with a line that announces `n` bytes of data. */
  ghost predicate AtData(b: Bytes, line: Bytes, n: nat) {
    Starts(b, line) && b[0] == DOLLAR && Denotes(line, n)
  }

  /** `b` starts with a line that announces more than `|fs|` elements, and its next `c` bytes are `fs`. */
  ghost predicate AtElement(b: Bytes, line: Bytes, fs: seq<Frame>, c: nat) {
    && Starts(b, line)
    && b[0] == STAR
    && c <= |Rest(b, line)|
    && WireAll(fs, Rest(b, line)[..c])
    && exists n :: |fs| < n && Denotes(line, n)
  }

  /** `b` is not the start of a frame, for the reason `e`: its type byte, its line, what follows its
      data, or the first of its elements that is itself broken. */
  ghost predicate Broken(b: Bytes, e: ParseError)
    decreases |b|
  {
    || (b != [] && b[0] !in TYPES && e == UnknownType(b[0]))
    || (exists line :: Starts(b, line) && BrokenLine(b[0], line, e))
    || (e == MissingTrailingCrlf && exists line, n: nat :: AtData(b, line, n) && n + 2 <= |Rest(b, line)|
                                                      && Rest(b, line)[n..n + 2] != CRLF)
    || (exists line, fs, c: nat :: AtElement(b, line, fs, c) && Broken(Rest(b, line)[c..], e))
  }

  /** `b` ends before its first line, its data or one of its elements does. */
  ghost predicate Short(b: Bytes)
    decreases |b|
  {
    || b == []
    || (b[0] in TYPES && forall i :: !CrlfAt(b, i))
    || (exists line, n: nat :: AtData(b, line, n) && |Rest(b, line)| < n + 2)
    || (exists line, fs, c: nat :: AtElement(b, line, fs, c) && Short(Rest(b, line)[c..]))
  }

  lemma StartsIsLine(b: Bytes, line: Bytes)
    requires Starts(b, line)
    ensures b[0] != CR && Line(b) == Some(line)
  {
    hide Line;
    HeadIsLine(b[0], line, Rest(b, line));
    assert b == Head(b[0], line) + Rest(b, line);
  }

  lemma LineStarts(b: Bytes)
    requires b != [] && b[0] in TYPES && Line(b).Some?
    ensures Starts(b, Line(b).value)
  {
    hide Line;
    LineIsHead(b);
  }

  lemma NoLineIff(b: Bytes)
    requires b != [] && b[0] != CR
    ensures Line(b).None? <==> forall i :: !CrlfAt(b, i)
  {
  }

  /** Behind complete elements, a failing element fails the array in the same way. */
  lemma {:induction false} ElementFails(fs: seq<Frame>, w: Bytes, rest: Bytes, n: nat)
    requires WireAll(fs, w) && |fs| < n && !Parse(rest).Complete?
    ensures ParseMany(w + rest, n) == match Parse(rest) case Error(e) => ManyError(e) case _ => ManyIncomplete
    decreases |fs|
  {
    hide Parse, Wire;
    if fs == [] {
      assert w + rest == rest;
    } else {
      var k :| 0 <= k <= |w| && Wire(fs[0], w[..k]) && WireAll(fs[1..], w[k..]);
      assert w + rest == w[..k] + (w[k..] + rest);
      WireParses(fs[0], w[..k], w[k..] + rest);
      assert (w + rest)[k..] == w[k..] + rest;
      ElementFails(fs[1..], w[k..], rest, n - 1);
    }
  }

  /** A failing run of frames: some of them are complete, and the next one fails in the same way. */
  lemma {:induction false} FailingElement(b: Bytes, n: nat) returns (fs: seq<Frame>, c: nat)
    requires !ParseMany(b, n).AllOf?
    ensures |fs| < n && c <= |b| && WireAll(fs, b[..c])
    ensures ParseMany(b, n) == match Parse(b[c..]) case Error(e) => ManyError(e) case _ => ManyIncomplete
    ensures !Parse(b[c..]).Complete?
    decreases n
  {
    hide Parse, Wire;
    if !Parse(b).Complete? {
      fs, c := [], 0;
      assert b[0..] == b;
    } else {
      var p := Parse(b);
      ParsedIsWire(b);
      var fs', c' := FailingElement(b[p.consumed..], n - 1);
      fs, c := [p.frame] + fs', p.consumed + c';
      var w := b[..c];
      assert w[..p.consumed] == b[..p.consumed] && w[p.consumed..] == b[p.consumed..][..c'];
      assert fs[1..] == fs';
      assert b[c..] == b[p.consumed..][c'..];
    }
  }

  /** What the parser makes of an array whose elements do not all complete. */
  lemma ArrayFails(b: Bytes, line: Bytes, fs: seq<Frame>, c: nat)
    requires AtElement(b, line, fs, c) && !Parse(Rest(b, line)[c..]).Complete?
    ensures Parse(b) == Parse(Rest(b, line)[c..])
  {
    hide Parse, Line, Utf8, ParseI64, Denotes, WireAll, ParseMany;
    var n :| |fs| < n && Denotes(line, n);
    StartsIsLine(b, line);
    DenotesIsPlain(line, n);
    ParseI64Iff(line, n);
    var rest := Rest(b, line);
    assert rest[..c] + rest[c..] == rest;
    ElementFails(fs, rest[..c], rest[c..], n);
    ArrayByLine(b, line);
  }

  lemma ArrayByLine(b: Bytes, line: Bytes)
    requires b != [] && b[0] == STAR && Line(b) == Some(line) && Utf8(line)
    ensures Parse(b) == ParseArray(b, line)
  {
    hide Line, Utf8, ParseArray;
  }

  lemma BulkByLine(b: Bytes, line: Bytes)
    requires b != [] && b[0] == DOLLAR && Line(b) == Some(line) && Utf8(line)
    ensures Parse(b) == ParseBulk(b, line)
  {
    hide Line, Utf8, ParseBulk;
  }

  /** What the parser makes of an announced bulk string that is cut short or not terminated. */
  lemma BulkFails(b: Bytes, line: Bytes, n: nat)
    requires AtData(b, line, n)
    ensures |Rest(b, line)| < n + 2 ==> Parse(b) == Incomplete
    ensures n + 2 <= |Rest(b, line)| && Rest(b, line)[n..n + 2] != CRLF ==> Parse(b) == Error(MissingTrailingCrlf)
  {
    hide Parse, Line, Utf8, ParseI64, Denotes;
    StartsIsLine(b, line);
    DenotesIsPlain(line, n);
    ParseI64Iff(line, n);
    BulkByLine(b, line);
  }

  lemma LineFails(b: Bytes, line: Bytes, e: ParseError)
    requires Starts(b, line) && BrokenLine(b[0], line, e)
    ensures Parse(b) == Error(e)
  {
    hide Line, Utf8, ParseI64, IsNumber;
    StartsIsLine(b, line);
    IsNumberIff(line);
  }

  lemma UnknownFails(b: Bytes)
    requires b != [] && b[0] !in TYPES
    ensures Parse(b) == Error(UnknownType(b[0]))
  {
  }

  lemma {:induction false} BrokenFails(b: Bytes, e: ParseError)
    requires Broken(b, e)
    ensures Parse(b) == Error(e)
    decreases |b|
  {
    hide Parse, BrokenLine, Denotes, WireAll, Head;
    if b != [] && b[0] !in TYPES && e == UnknownType(b[0]) {
      UnknownFails(b);
    } else if line :| Starts(b, line) && BrokenLine(b[0], line, e) {
      LineFails(b, line, e);
    } else if e == MissingTrailingCrlf && exists line, n: nat ::
        AtData(b, line, n) && n + 2 <= |Rest(b, line)| && Rest(b, line)[n..n + 2] != CRLF {
      var line, n: nat :| AtData(b, line, n) && n + 2 <= |Rest(b, line)| && Rest(b, line)[n..n + 2] != CRLF;
      BulkFails(b, line, n);
    } else {
      var line, fs, c: nat :| AtElement(b, line, fs, c) && Broken(Rest(b, line)[c..], e);
      BrokenFails(Rest(b, line)[c..], e);
      ArrayFails(b, line, fs, c);
    }
  }

  lemma {:induction false} ShortWaits(b: Bytes)
    requires Short(b)
    ensures Parse(b) == Incomplete
    decreases |b|
  {
    hide Parse, Denotes, WireAll, Head, Line;
    if b == [] {
      EmptyIncomplete();
    } else if b[0] in TYPES && forall i :: !CrlfAt(b, i) {
      NoLineIff(b);
      NoLineWaits(b);
    } else if line, n: nat :| AtData(b, line, n) && |Rest(b, line)| < n + 2 {
      BulkFails(b, line, n);
    } else {
      var line, fs, c: nat :| AtElement(b, line, fs, c) && Short(Rest(b, line)[c..]);
      ShortWaits(Rest(b, line)[c..]);
      ArrayFails(b, line, fs, c);
    }
  }

  lemma NoLineWaits(b: Bytes)
    requires b != [] && b[0] in TYPES && Line(b).None?
    ensures Parse(b) == Incomplete
  {
    hide Line;
  }

  lemma LineNotComplete(b: Bytes, line: Bytes)
    requires b != [] && b[0] in TYPES && Line(b) == Some(line) && !Parse(b).Complete?
    requires !Utf8(line) || !IsNumber(line)
    ensures Parse(b).Error? && Broken(b, Parse(b).error)
  {
    hide Line, Utf8, ParseI64, IsNumber, Starts, AtData, AtElement;
    LineStarts(b);
    IsNumberIff(line);
    assert BrokenLine(b[0], line, Parse(b).error);
  }

  lemma BulkNotComplete(b: Bytes, line: Bytes, n: int)
    requires b != [] && b[0] == DOLLAR && Line(b) == Some(line) && Utf8(line) && Denotes(line, n)
    requires !Parse(b).Complete?
    ensures Parse(b).Error? ==> Broken(b, Parse(b).error)
    ensures Parse(b).Incomplete? ==> Short(b)
  {
    hide Line, Utf8, ParseI64, Denotes, Starts, AtElement, BrokenLine, Parse;
    LineStarts(b);
    ParseI64Iff(line, n);
    BulkByLine(b, line);
    assert AtData(b, line, n);
  }

  lemma TextCompletes(b: Bytes, line: Bytes, n: int)
    requires b != [] && (b[0] == PLUS || b[0] == MINUS || b[0] == COLON) && Line(b) == Some(line) && Utf8(line)
    requires Denotes(line, n)
    ensures Parse(b).Complete?
  {
    hide Line, Utf8, ParseI64, Denotes;
    ParseI64Iff(line, n);
  }

  lemma ArrayNotComplete(b: Bytes, line: Bytes, n: int) returns (fs: seq<Frame>, c: nat)
    requires b != [] && b[0] == STAR && Line(b) == Some(line) && Utf8(line) && Denotes(line, n)
    requires !Parse(b).Complete?
    ensures AtElement(b, line, fs, c) && Parse(b) == Parse(Rest(b, line)[c..])
  {
    hide Line, Utf8, ParseI64, Denotes, Parse, WireAll, ParseMany, Starts;
    LineStarts(b);
    ParseI64Iff(line, n);
    ArrayByLine(b, line);
    fs, c := FailingElement(Rest(b, line), n);
  }

  /** A parse that does not complete found its input broken or short. */
  lemma {:induction false} NotComplete(b: Bytes)
    ensures Parse(b).Error? ==> Broken(b, Parse(b).error)
    ensures Parse(b).Incomplete? ==> Short(b)
    decreases |b|
  {
    if b == [] {
      EmptyIncomplete();
    } else if b[0] !in TYPES {
      UnknownFails(b);
    } else if !Parse(b).Complete? {
      NoLineIff(b);
      hide Line, Utf8, Parse, Denotes, AtData, BrokenLine, WireAll;
      if Line(b).None? {
        NoLineWaits(b);
      } else {
        var line := Line(b).value;
        if !Utf8(line) || !IsNumber(line) {
          LineNotComplete(b, line);
        } else {
          var n :| Denotes(line, n);
          if b[0] == DOLLAR {
            BulkNotComplete(b, line, n);
          } else if b[0] == STAR {
            var fs, c := ArrayNotComplete(b, line, n);
            NotComplete(Rest(b, line)[c..]);
          } else {
            TextCompletes(b, line, n);
          }
        }
      }
    }
  }

  /** Each error is reported exactly on the input that is broken in that way ... */
  lemma ErrorIff(b: Bytes, e: ParseError)
    ensures Parse(b) == Error(e) <==> Broken(b, e)
  {
    hide Parse, Broken, Short;
    NotComplete(b);
    if Broken(b, e) {
      BrokenFails(b, e);
    }
  }

  /** ... and more input is awaited exactly when the input is short. */
  lemma IncompleteIff(b: Bytes)
    ensures Parse(b) == Incomplete <==> Short(b)
  {
    hide Parse, Broken, Short;
    NotComplete(b);
    if Short(b) {
      ShortWaits(b);
    }
  }
}
