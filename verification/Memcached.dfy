/** The memcached text parser: a command-line pass, and a second pass once the data block is there. Letter case is
    ASCII: no other letter has a lower case that occurs in a keyword. */
module Memcached {
  import opened Base
  import opened Decimal

  const MAX_KEY_LENGTH: nat := 250

  datatype Verb = VGet | VGets | VSet | VAdd | VReplace | VAppend | VPrepend | VCas | VDelete | VIncr | VDecr
                | VFlushAll | VStats | VVersion | VQuit

  datatype Command =
    | Get(keys: seq<Bytes>)
    | Gets(keys: seq<Bytes>)
    // set, add, replace, append, prepend
    | Store(verb: Verb, key: Bytes, flags: nat, exptime: nat, bytes: nat, noreply: bool)
    | Cas(key: Bytes, flags: nat, exptime: nat, bytes: nat, casUnique: nat, noreply: bool)
    | Delete(key: Bytes, noreply: bool)
    | Incr(key: Bytes, value: nat, noreply: bool)
    | Decr(key: Bytes, value: nat, noreply: bool)
    | FlushAll(delay: nat, noreply: bool)
    | Stats
    | Version
    | Quit

  datatype ParseError =
    | Incomplete
    | InvalidCommand
    | KeyTooLong(key: Bytes)
    | InvalidNumber
    | UnknownCommand(name: Bytes)

  datatype ParseResult =
    | Complete(command: Command, consumed: nat)
    | NeedData(commandBytes: nat, dataBytes: nat)
    | Error(error: ParseError)
    | Panicked  // a slice index out of bounds

  // ---------------------------------------------------------------- words

  /** `char::is_whitespace` of the character with this UTF-8 encoding. */
  predicate SpaceChar(ch: Bytes) {
    || (|ch| == 1 && (9 <= ch[0] <= 13 || ch[0] == 32))
    || ch == [0xC2, 0x85] || ch == [0xC2, 0xA0] || ch == [0xE1, 0x9A, 0x80]
    || (|ch| == 3 && ch[0] == 0xE2 && ch[1] == 0x80 && (0x80 <= ch[2] <= 0x8A || ch[2] in {0xA8, 0xA9, 0xAF}))
    || ch == [0xE2, 0x81, 0x9F] || ch == [0xE3, 0x80, 0x80]
  }

  /** The length of the first character. */
  function FirstChar(s: Bytes): (r: nat)
    requires s != []
    ensures 0 < r <= |s|
  {
    if CharLen(s) > 0 then CharLen(s) else 1
  }

  /** The words of `s`, after a word begun with `current`. */
  function Words(s: Bytes, current: Bytes): seq<Bytes>
    decreases |s|
  {
    var done := if current == [] then [] else [current];
    if s == [] then done
    else
      var k := FirstChar(s);
      if SpaceChar(s[..k]) then done + Words(s[k..], [])
      else Words(s[k..], current + s[..k])
  }

  /** `split_whitespace` */
  function Split(s: Bytes): seq<Bytes> {
    Words(s, [])
  }

  function LowerByte(x: byte): byte {
    if 65 <= x <= 90 then x + 32 else x
  }

  function Lower(s: Bytes): (r: Bytes)
    ensures |r| == |s| && forall i :: 0 <= i < |s| ==> r[i] == LowerByte(s[i])
  {
    seq(|s|, i requires 0 <= i < |s| => LowerByte(s[i]))
  }

  // ---------------------------------------------------------------- keywords

  const GET: Bytes := [103, 101, 116]
  const GETS: Bytes := [103, 101, 116, 115]
  const SET: Bytes := [115, 101, 116]
  const ADD: Bytes := [97, 100, 100]
  const REPLACE: Bytes := [114, 101, 112, 108, 97, 99, 101]
  const APPEND: Bytes := [97, 112, 112, 101, 110, 100]
  const PREPEND: Bytes := [112, 114, 101, 112, 101, 110, 100]
  const CAS: Bytes := [99, 97, 115]
  const DELETE: Bytes := [100, 101, 108, 101, 116, 101]
  const INCR: Bytes := [105, 110, 99, 114]
  const DECR: Bytes := [100, 101, 99, 114]
  const FLUSH_ALL: Bytes := [102, 108, 117, 115, 104, 95, 97, 108, 108]
  const STATS: Bytes := [115, 116, 97, 116, 115]
  const VERSION: Bytes := [118, 101, 114, 115, 105, 111, 110]
  const QUIT: Bytes := [113, 117, 105, 116]
  const NOREPLY: Bytes := [110, 111, 114, 101, 112, 108, 121]

  function VerbOf(name: Bytes): Option<Verb> {
    if name == GET then Some(VGet)
    else if name == GETS then Some(VGets)
    else if name == SET then Some(VSet)
    else if name == ADD then Some(VAdd)
    else if name == REPLACE then Some(VReplace)
    else if name == APPEND then Some(VAppend)
    else if name == PREPEND then Some(VPrepend)
    else if name == CAS then Some(VCas)
    else if name == DELETE then Some(VDelete)
    else if name == INCR then Some(VIncr)
    else if name == DECR then Some(VDecr)
    else if name == FLUSH_ALL then Some(VFlushAll)
    else if name == STATS then Some(VStats)
    else if name == VERSION then Some(VVersion)
    else if name == QUIT then Some(VQuit)
    else None
  }

  predicate IsStore(v: Verb) {
    v.VSet? || v.VAdd? || v.VReplace? || v.VAppend? || v.VPrepend?
  }

  function Keyword(v: Verb): Bytes {
    match v
    case VSet => SET
    case VAdd => ADD
    case VReplace => REPLACE
    case VAppend => APPEND
    case VPrepend => PREPEND
    case VCas => CAS
    case VGet => GET
    case VGets => GETS
    case VDelete => DELETE
    case VIncr => INCR
    case VDecr => DECR
    case VFlushAll => FLUSH_ALL
    case VStats => STATS
    case VVersion => VERSION
    case VQuit => QUIT
  }

  // ---------------------------------------------------------------- the command line

  datatype Header = Header(parts: seq<Bytes>, bytes: nat) | Bad(error: ParseError)

  /** The first line, split; both passes begin like this. */
  function CommandLine(b: Bytes): (h: Header)
    ensures h.Header? ==> h.parts != [] && 2 <= h.bytes <= |b|
  {
    var end := FindCrlf(b);
    if end.None? then Bad(Incomplete)
    else if !Utf8(b[..end.value]) then Bad(InvalidCommand)
    else
      var parts := Split(b[..end.value]);
      if parts == [] then Bad(InvalidCommand) else Header(parts, end.value + 2)
  }

  predicate NoReplyAt(parts: seq<Bytes>, i: nat) {
    |parts| > i && Lower(parts[i]) == NOREPLY
  }

  function OrZero(n: Option<nat>): nat {
    if n.Some? then n.value else 0
  }

  // ---------------------------------------------------------------- first pass

  function Parse(b: Bytes): ParseResult {
    match CommandLine(b)
    case Bad(e) => Error(e)
    case Header(parts, n) =>
      var verb := VerbOf(Lower(parts[0]));
      if verb.None? then Error(UnknownCommand(Lower(parts[0])))
      else
        match verb.value
        case VGet => ParseGet(parts, false, n)
        case VGets => ParseGet(parts, true, n)
        case VCas => ParseCas(parts, n)
        case VDelete => ParseDelete(parts, n)
        case VIncr => ParseIncrDecr(parts, true, n)
        case VDecr => ParseIncrDecr(parts, false, n)
        case VFlushAll => ParseFlushAll(parts, n)
        case VStats => Complete(Stats, n)
        case VVersion => Complete(Version, n)
        case VQuit => Complete(Quit, n)
        case _ => ParseStorage(parts, n)
  }

  /** The first key that is too long, from position `i` on. */
  function FirstTooLong(parts: seq<Bytes>, i: nat): Option<Bytes>
    decreases |parts| - i
  {
    if i >= |parts| then None
    else if |parts[i]| > MAX_KEY_LENGTH then Some(parts[i])
    else FirstTooLong(parts, i + 1)
  }

  function ParseGet(parts: seq<Bytes>, withCas: bool, n: nat): ParseResult {
    if |parts| < 2 then Error(InvalidCommand)
    else
      var long := FirstTooLong(parts, 1);
      if long.Some? then Error(KeyTooLong(long.value))
      else Complete(if withCas then Gets(parts[1..]) else Get(parts[1..]), n)
  }

  predicate ShortKeys(keys: seq<Bytes>) {
    forall i :: 0 <= i < |keys| ==> |keys[i]| <= MAX_KEY_LENGTH
  }

  /** Only one key is the first that is too long. */
  lemma OnlyFirstLong(parts: seq<Bytes>, i: nat)
    requires 0 < i < |parts| && ShortKeys(parts[1..i]) && |parts[i]| > MAX_KEY_LENGTH
    ensures forall k :: 0 < k < i ==> |parts[k]| <= MAX_KEY_LENGTH
    ensures forall k :: i < k <= |parts| ==> !ShortKeys(parts[1..k])
  {
    forall k | 0 < k < i
      ensures |parts[k]| <= MAX_KEY_LENGTH
    {
      assert parts[1..i][k - 1] == parts[k];
    }
    forall k | i < k <= |parts|
      ensures !ShortKeys(parts[1..k])
    {
      assert parts[1..k][i - 1] == parts[i];
    }
  }

  /** `parse_get`, as the loop that pushes the keys. */
  method ParseGetLoop(parts: seq<Bytes>, withCas: bool, n: nat) returns (r: ParseResult)
    ensures r == ParseGet(parts, withCas, n)
    ensures |parts| < 2 ==> r == Error(InvalidCommand)
    ensures |parts| >= 2 && ShortKeys(parts[1..]) ==>
              r == Complete(if withCas then Gets(parts[1..]) else Get(parts[1..]), n)
    ensures forall k :: 0 < k < |parts| && ShortKeys(parts[1..k]) && |parts[k]| > MAX_KEY_LENGTH ==>
              r == Error(KeyTooLong(parts[k]))
  {
    if |parts| < 2 {
      return Error(InvalidCommand);
    }
    var keys: seq<Bytes> := [];
    for i := 1 to |parts|
      invariant keys == parts[1..i]
      invariant ShortKeys(keys)
      invariant FirstTooLong(parts, 1) == FirstTooLong(parts, i)
    {
      if |parts[i]| > MAX_KEY_LENGTH {
        OnlyFirstLong(parts, i);
        assert parts[1..|parts|] == parts[1..];
        return Error(KeyTooLong(parts[i]));
      }
      keys := keys + [parts[i]];
    }
    assert parts[1..|parts|] == parts[1..];
    r := Complete(if withCas then Gets(keys) else Get(keys), n);
  }

  function ParseStorage(parts: seq<Bytes>, n: nat): ParseResult {
    if |parts| < 5 then Error(InvalidCommand)
    else if |parts[1]| > MAX_KEY_LENGTH then Error(KeyTooLong(parts[1]))
    else if ParseUnsigned(parts[2], U32_MAX).None? then Error(InvalidNumber)
    else if ParseUnsigned(parts[3], U64_MAX).None? then Error(InvalidNumber)
    else
      var bytes := ParseUnsigned(parts[4], U64_MAX);
      if bytes.None? then Error(InvalidNumber) else NeedData(n, bytes.value)
  }

  function ParseCas(parts: seq<Bytes>, n: nat): ParseResult {
    if |parts| < 6 then Error(InvalidCommand)
    else if |parts[1]| > MAX_KEY_LENGTH then Error(KeyTooLong(parts[1]))
    else
      var bytes := ParseUnsigned(parts[4], U64_MAX);
      if bytes.None? then Error(InvalidNumber) else NeedData(n, bytes.value)
  }

  function ParseDelete(parts: seq<Bytes>, n: nat): ParseResult {
    if |parts| < 2 then Error(InvalidCommand)
    else if |parts[1]| > MAX_KEY_LENGTH then Error(KeyTooLong(parts[1]))
    else Complete(Delete(parts[1], NoReplyAt(parts, 2)), n)
  }

  function ParseIncrDecr(parts: seq<Bytes>, isIncr: bool, n: nat): ParseResult {
    if |parts| < 3 then Error(InvalidCommand)
    else if |parts[1]| > MAX_KEY_LENGTH then Error(KeyTooLong(parts[1]))
    else
      var value := ParseUnsigned(parts[2], U64_MAX);
      if value.None? then Error(InvalidNumber)
      else if isIncr then Complete(Incr(parts[1], value.value, NoReplyAt(parts, 3)), n)
      else Complete(Decr(parts[1], value.value, NoReplyAt(parts, 3)), n)
  }

  function ParseFlushAll(parts: seq<Bytes>, n: nat): ParseResult {
    if |parts| <= 1 then Complete(FlushAll(0, false), n)
    else if NoReplyAt(parts, 1) then Complete(FlushAll(0, true), n)
    else Complete(FlushAll(OrZero(ParseUnsigned(parts[1], U64_MAX)), NoReplyAt(parts, 2)), n)
  }

  // ---------------------------------------------------------------- second pass

  function ParseWithData(b: Bytes): ParseResult {
    match CommandLine(b)
    case Bad(e) => Error(e)
    case Header(parts, n) =>
      var verb := VerbOf(Lower(parts[0]));
      if verb.None? || !(IsStore(verb.value) || verb.value.VCas?) then Error(InvalidCommand)
      else
        var isCas := verb.value.VCas?;
        if |parts| < (if isCas then 6 else 5) then Error(InvalidCommand)
        else
          var bytes := ParseUnsigned(parts[4], U64_MAX);
          if bytes.None? then Error(InvalidNumber)
          else WithData(b, verb.value, parts, n, bytes.value)
  }

  /** The data block behind the command line. Lengths are `usize` sums, which wrap. */
  function WithData(b: Bytes, verb: Verb, parts: seq<Bytes>, n: nat, bytes: nat): ParseResult
    requires |parts| >= 5 && (verb.VCas? ==> |parts| >= 6)
  {
    var total, cr, lf := Wrap(n + bytes + 2), Wrap(n + bytes), Wrap(n + bytes + 1);
    if |b| < total then Error(Incomplete)
    else if cr >= |b| then Panicked
    else if b[cr] != CR then Error(InvalidCommand)
    else if lf >= |b| then Panicked
    else if b[lf] != LF then Error(InvalidCommand)
    else if |parts[1]| > MAX_KEY_LENGTH then Error(KeyTooLong(parts[1]))
    else Complete(StorageCommand(verb, parts, bytes), total)
  }

  function StorageCommand(verb: Verb, parts: seq<Bytes>, bytes: nat): Command
    requires |parts| >= 5 && (verb.VCas? ==> |parts| >= 6)
  {
    var flags := OrZero(ParseUnsigned(parts[2], U32_MAX));
    var exptime := OrZero(ParseUnsigned(parts[3], U64_MAX));
    if verb.VCas? then
      Cas(parts[1], flags, exptime, bytes, OrZero(ParseUnsigned(parts[5], U64_MAX)), NoReplyAt(parts, 6))
    else Store(verb, parts[1], flags, exptime, bytes, NoReplyAt(parts, 5))
  }

  // ---------------------------------------------------------------- two-pass agreement

  predicate IsStorageCommand(c: Command) {
    c.Store? || c.Cas?
  }

  /** The first pass never completes a storage command by itself, and never panics. */
  lemma FirstPassNeverStores(b: Bytes)
    ensures Parse(b).Complete? ==> !IsStorageCommand(Parse(b).command)
    ensures !Parse(b).Panicked?
  {
    hide FindCrlf, Utf8, Split, Lower, VerbOf;
  }

  lemma NeedDataMeans(b: Bytes)
    requires Parse(b).NeedData?
    ensures CommandLine(b).Header?
    ensures var h := CommandLine(b); var v := VerbOf(Lower(h.parts[0]));
            && v.Some? && (IsStore(v.value) || v.value.VCas?)
            && |h.parts| >= (if v.value.VCas? then 6 else 5) && |h.parts[1]| <= MAX_KEY_LENGTH
            && ParseUnsigned(h.parts[4], U64_MAX) == Some(Parse(b).dataBytes) && Parse(b).commandBytes == h.bytes
            && ParseWithData(b) == WithData(b, v.value, h.parts, h.bytes, Parse(b).dataBytes)
  {
    hide CommandLine, Lower, VerbOf, ParseUnsigned, NoReplyAt, WithData;
  }

  /** The data block when its length does not wrap. */
  lemma DataFits(b: Bytes, verb: Verb, parts: seq<Bytes>, n: nat, d: nat)
    requires |parts| >= 5 && (verb.VCas? ==> |parts| >= 6) && |parts[1]| <= MAX_KEY_LENGTH
    requires n + d + 2 < U64
    ensures WithData(b, verb, parts, n, d) ==
            if |b| < n + d + 2 then Error(Incomplete)
            else if CrlfAt(b, n + d) then Complete(StorageCommand(verb, parts, d), n + d + 2)
            else Error(InvalidCommand)
    ensures var cmd := StorageCommand(verb, parts, d); IsStorageCommand(cmd) && cmd.bytes == d && cmd.key == parts[1]
  {
    hide Wrap, ParseUnsigned, NoReplyAt;
    WrapId(n + d + 2);
    WrapId(n + d + 1);
    WrapId(n + d);
  }

  /** When the first pass asks for data and all of it is there, the second pass either completes with exactly
      that data length and a legal key, or rejects, and it rejects precisely when the data block is not
      followed by CRLF. (No slice is longer than `isize::MAX` bytes.) */
  lemma TwoPassAgreement(b: Bytes)
    requires Parse(b).NeedData? && |b| <= I64_MAX
    requires |b| >= Parse(b).commandBytes + Parse(b).dataBytes + 2
    ensures var c, d, r := Parse(b).commandBytes, Parse(b).dataBytes, ParseWithData(b);
            if CrlfAt(b, c + d) then
              && r.Complete? && r.consumed == c + d + 2 && IsStorageCommand(r.command)
              && r.command.bytes == d && |r.command.key| <= MAX_KEY_LENGTH
            else r == Error(InvalidCommand)
  {
    NeedDataMeans(b);
    hide CommandLine, Lower, VerbOf, ParseUnsigned, Parse, ParseWithData, WithData, StorageCommand;
    var h := CommandLine(b);
    DataFits(b, VerbOf(Lower(h.parts[0])).value, h.parts, h.bytes, Parse(b).dataBytes);
  }

  /** Before all data is there the second pass asks for more, as long as the length does not wrap. */
  lemma SecondPassWaits(b: Bytes)
    requires Parse(b).NeedData?
    requires |b| < Parse(b).commandBytes + Parse(b).dataBytes + 2 < U64
    ensures ParseWithData(b) == Error(Incomplete)
  {
    NeedDataMeans(b);
    hide CommandLine, Lower, VerbOf, ParseUnsigned, Parse, ParseWithData, WithData, StorageCommand;
    var h := CommandLine(b);
    DataFits(b, VerbOf(Lower(h.parts[0])).value, h.parts, h.bytes, Parse(b).dataBytes);
  }

  /** When it does wrap, no data can have arrived, and still the second pass waits only for a length of 2^64 - 1
      with nothing behind the command line. For 2^64 - 2 it takes the command line's own CRLF for the end of the
      data and completes with no data at all; if the sum comes to 2^64 or one more it indexes out of bounds;
      every other length it rejects. */
  lemma SecondPassWraps(b: Bytes)
    requires Parse(b).NeedData? && |b| <= I64_MAX
    requires Parse(b).commandBytes + Parse(b).dataBytes + 2 >= U64
    ensures var c, d, r := Parse(b).commandBytes, Parse(b).dataBytes, ParseWithData(b);
            && (r.Panicked? <==> c + d + 2 < U64 + 2)
            && (r.Complete? <==> d == U64 - 2)
            && (r.Complete? ==> r.consumed == c && IsStorageCommand(r.command) && r.command.bytes == d)
            && (r == Error(Incomplete) <==> d == U64 - 1 && |b| == c)
            && (r.Error? ==> r == Error(Incomplete) || r == Error(InvalidCommand))
            && !r.NeedData?
  {
    NeedDataMeans(b);
    HeaderEnds(b);
    hide CommandLine, Lower, VerbOf, ParseUnsigned, Parse, ParseWithData, WithData, StorageCommand;
    var h := CommandLine(b);
    BoundedNumber(h.parts[4], U64_MAX);
    DataWraps(b, VerbOf(Lower(h.parts[0])).value, h.parts, h.bytes, Parse(b).dataBytes);
  }

  lemma DataWraps(b: Bytes, verb: Verb, parts: seq<Bytes>, n: nat, d: nat)
    requires |parts| >= 5 && (verb.VCas? ==> |parts| >= 6) && |parts[1]| <= MAX_KEY_LENGTH
    requires 2 < n <= |b| <= I64_MAX && CrlfAt(b, n - 2) && forall i :: 0 <= i < n - 2 ==> !CrlfAt(b, i)
    requires d <= U64_MAX && n + d + 2 >= U64
    ensures WithData(b, verb, parts, n, d) ==
            if n + d + 2 < U64 + 2 then Panicked
            else if d == U64 - 2 then Complete(StorageCommand(verb, parts, d), n)
            else if d == U64 - 1 && |b| == n then Error(Incomplete)
            else Error(InvalidCommand)
    ensures var cmd := StorageCommand(verb, parts, d); IsStorageCommand(cmd) && cmd.bytes == d
  {
    hide Wrap, ParseUnsigned, NoReplyAt;
    var k := n + d + 2 - U64;
    WrapDown(n + d + 2, k);
    if k < 2 {
      WrapId(n + d);
    } else {
      WrapDown(n + d, k - 2);
      WrapDown(n + d + 1, k - 1);
      assert k < n ==> !CrlfAt(b, k - 2);
    }
  }

  lemma WrapDown(x: int, y: int)
    requires 0 <= y < U64 && x == y + U64
    ensures Wrap(x) == y
  {
  }

  /** The command line ends in the first CRLF and has at least one byte before it. */
  lemma HeaderEnds(b: Bytes)
    requires CommandLine(b).Header?
    ensures var n := CommandLine(b).bytes; n > 2 && CrlfAt(b, n - 2) && forall i :: 0 <= i < n - 2 ==> !CrlfAt(b, i)
  {
    hide FindCrlfFrom, Utf8, Words;
    var end := FindCrlf(b).value;
    if end == 0 {
      assert b[..0] == [];
      NoWords();
    }
  }

  lemma BoundedNumber(s: Bytes, max: nat)
    requires ParseUnsigned(s, max).Some?
    ensures ParseUnsigned(s, max).value <= max
  {
  }

  lemma NoWords()
    ensures Split([]) == []
  {
  }

  lemma CommandLineStable(b: Bytes, e: Bytes)
    requires CommandLine(b) != Bad(Incomplete)
    ensures CommandLine(b + e) == CommandLine(b)
  {
    FindCrlfExtend(b, e);
    var end := FindCrlf(b).value;
    assert (b + e)[..end] == b[..end];
  }

  /** Once the command line has arrived, more input changes neither the first pass nor a completed second one. */
  lemma ParseStable(b: Bytes, e: Bytes)
    requires Parse(b) != Error(Incomplete)
    ensures Parse(b + e) == Parse(b)
    ensures ParseWithData(b).Complete? ==> ParseWithData(b + e) == ParseWithData(b)
  {
    hide FindCrlf, Utf8, Split, Lower, VerbOf, ParseUnsigned;
    CommandLineStable(b, e);
  }

  // ---------------------------------------------------------------- requests as clients write them

  const SPACE: byte := 32

  function Join(words: seq<Bytes>): Bytes {
    if words == [] then []
    else if |words| == 1 then words[0]
    else words[0] + [SPACE] + Join(words[1..])
  }

  /** Well-formed UTF-8 without a white-space character. */
  predicate Spaceless(w: Bytes)
    decreases |w|
  {
    w == [] || (CharLen(w) > 0 && !SpaceChar(w[..CharLen(w)]) && Spaceless(w[CharLen(w)..]))
  }

  predicate IsWord(w: Bytes) {
    w != [] && Spaceless(w)
  }

  predicate AllWords(ws: seq<Bytes>) {
    forall i :: 0 <= i < |ws| ==> IsWord(ws[i])
  }

  /** Reading off one word. */
  lemma {:induction false} WordsOfWord(w: Bytes, current: Bytes, rest: Bytes)
    requires Spaceless(w)
    ensures Words(w + rest, current) == Words(rest, current + w)
    decreases |w|
  {
    hide CharLen, SpaceChar;
    if w == [] {
      assert w + rest == rest && current + w == current;
    } else {
      var k := CharLen(w);
      CharLenExtend(w, rest);
      assert (w + rest)[..k] == w[..k] && (w + rest)[k..] == w[k..] + rest;
      WordsOfWord(w[k..], current + w[..k], rest);
      assert current + w[..k] + w[k..] == current + w;
    }
  }

  lemma SpaceFirst(rest: Bytes)
    ensures FirstChar([SPACE] + rest) == 1 && SpaceChar(([SPACE] + rest)[..1]) && ([SPACE] + rest)[1..] == rest
  {
    assert ([SPACE] + rest)[..1] == [SPACE];
  }

  /** Joining words with single spaces and splitting again gives them back. */
  lemma {:induction false} SplitJoin(ws: seq<Bytes>)
    requires AllWords(ws)
    ensures Split(Join(ws)) == ws
    decreases |ws|
  {
    hide FirstChar, SpaceChar, Spaceless;
    if |ws| == 1 {
      assert IsWord(ws[0]);
      WordsOfWord(ws[0], [], []);
      assert ws[0] + [] == ws[0] && [] + ws[0] == ws[0];
    } else if |ws| > 1 {
      assert IsWord(ws[0]);
      var tail := [SPACE] + Join(ws[1..]);
      WordsOfWord(ws[0], [], tail);
      assert Join(ws) == ws[0] + tail && [] + ws[0] == ws[0];
      SpaceFirst(Join(ws[1..]));
      SplitJoin(ws[1..]);
      assert ws == [ws[0]] + ws[1..];
    }
  }

  /** Bytes of a longer character are not ASCII. */
  lemma CharBytes(w: Bytes)
    requires CharLen(w) > 0 && !SpaceChar(w[..CharLen(w)])
    ensures forall i :: 0 <= i < CharLen(w) ==> w[i] != CR
  {
    assert CharLen(w) == 1 ==> w[..1] == [w[0]];
  }

  lemma {:induction false} SpacelessLine(w: Bytes)
    requires Spaceless(w)
    ensures Utf8(w) && forall i :: 0 <= i < |w| ==> w[i] != CR
    decreases |w|
  {
    hide CharLen, SpaceChar;
    if w != [] {
      var k := CharLen(w);
      CharBytes(w);
      SpacelessLine(w[k..]);
      assert forall i :: k <= i < |w| ==> w[i] == w[k..][i - k];
    }
  }

  lemma {:induction false} JoinIsLine(ws: seq<Bytes>)
    requires AllWords(ws)
    ensures Utf8(Join(ws))
    ensures forall i :: 0 <= i < |Join(ws)| ==> Join(ws)[i] != CR
    decreases |ws|
  {
    hide Utf8, Spaceless;
    if ws == [] {
      AsciiIsUtf8([]);
    } else {
      assert IsWord(ws[0]);
      SpacelessLine(ws[0]);
      if |ws| > 1 {
        JoinIsLine(ws[1..]);
        AsciiIsUtf8([SPACE]);
        Utf8Concat(ws[0], [SPACE]);
        Utf8Concat(ws[0] + [SPACE], Join(ws[1..]));
      }
    }
  }

  lemma {:induction false} PlainIsSpaceless(w: Bytes)
    requires forall i :: 0 <= i < |w| ==> 33 <= w[i] < 0x80
    ensures Spaceless(w)
    decreases |w|
  {
    if w != [] {
      assert w[..1] == [w[0]];
      PlainIsSpaceless(w[1..]);
    }
  }

  /** A command line of single-spaced words is read back as those words. */
  lemma LineOfWords(ws: seq<Bytes>, rest: Bytes)
    requires AllWords(ws) && ws != []
    ensures CommandLine(Join(ws) + CRLF + rest) == Header(ws, |Join(ws)| + 2)
  {
    var line := Join(ws);
    JoinIsLine(ws);
    assert NoCrlf(line);
    FindCrlfLine(line, rest);
    assert (line + CRLF + rest)[..|line|] == line;
    SplitJoin(ws);
  }

  lemma NumberIsWord(n: nat)
    ensures IsWord(Digits(n))
  {
    PrintedIsPlain(n);
    assert PrintInt(n) == Digits(n);
    PlainIsSpaceless(Digits(n));
  }

  lemma KeywordFacts(v: Verb)
    ensures Lower(Keyword(v)) == Keyword(v) && VerbOf(Keyword(v)) == Some(v) && IsWord(Keyword(v))
  {
    hide Keyword, VerbOf, Lower;
    KeywordPlain(v);
    PlainIsSpaceless(Keyword(v));
  }

  lemma NoReplyFacts()
    ensures IsWord(NOREPLY) && Lower(NOREPLY) == NOREPLY
  {
    hide Lower, Spaceless;
    LettersArePlain(NOREPLY);
    PlainIsSpaceless(NOREPLY);
  }

  lemma LettersArePlain(w: Bytes)
    requires forall i :: 0 <= i < |w| ==> w[i] == 95 || 97 <= w[i] <= 122
    ensures Lower(w) == w
    ensures forall i :: 0 <= i < |w| ==> 33 <= w[i] < 0x80
  {
  }

  lemma KeywordPlain(v: Verb)
    ensures Lower(Keyword(v)) == Keyword(v) && VerbOf(Keyword(v)) == Some(v)
    ensures Keyword(v) != [] && forall i :: 0 <= i < |Keyword(v)| ==> 33 <= Keyword(v)[i] < 0x80
  {
    hide Lower, VerbOf;
    LettersArePlain(Keyword(v));
    if IsStore(v) || v.VCas? {
      StoreKeyword(v);
    } else if v.VGet? || v.VGets? || v.VDelete? || v.VIncr? || v.VDecr? {
      KeyKeyword(v);
    } else {
      BareKeyword(v);
    }
  }

  lemma StoreKeyword(v: Verb)
    requires IsStore(v) || v.VCas?
    ensures VerbOf(Keyword(v)) == Some(v)
  {
  }

  lemma KeyKeyword(v: Verb)
    requires v.VGet? || v.VGets? || v.VDelete? || v.VIncr? || v.VDecr?
    ensures VerbOf(Keyword(v)) == Some(v)
  {
  }

  lemma BareKeyword(v: Verb)
    requires v.VFlushAll? || v.VStats? || v.VVersion? || v.VQuit?
    ensures VerbOf(Keyword(v)) == Some(v)
  {
  }

  /** A storage command as a client writes it; the token is part of it for cas. */
  datatype Request = Request(verb: Verb, key: Bytes, flags: nat, exptime: nat, token: nat, noreply: bool)

  predicate WellFormed(q: Request) {
    && (IsStore(q.verb) || q.verb.VCas?) && IsWord(q.key) && |q.key| <= MAX_KEY_LENGTH
    && q.flags <= U32_MAX && q.exptime <= U64_MAX && q.token <= U64_MAX
  }

  /** Its command line, announcing `size` bytes of data. */
  function RequestWords(q: Request, size: nat): seq<Bytes> {
    [Keyword(q.verb), q.key, Digits(q.flags), Digits(q.exptime), Digits(size)]
    + (if q.verb.VCas? then [Digits(q.token)] else []) + (if q.noreply then [NOREPLY] else [])
  }

  function HeaderOf(q: Request, size: nat): Bytes {
    Join(RequestWords(q, size)) + CRLF
  }

  function CommandOf(q: Request, size: nat): Command {
    if q.verb.VCas? then Cas(q.key, q.flags, q.exptime, size, q.token, q.noreply)
    else Store(q.verb, q.key, q.flags, q.exptime, size, q.noreply)
  }

  lemma RequestWordsAreWords(q: Request, size: nat)
    requires IsWord(q.key)
    ensures RequestWords(q, size) != [] && AllWords(RequestWords(q, size))
  {
    hide IsWord, Keyword, Digits, VerbOf, Lower;
    KeywordFacts(q.verb);
    NoReplyFacts();
    NumberIsWord(q.flags);
    NumberIsWord(q.exptime);
    NumberIsWord(size);
    NumberIsWord(q.token);
  }

  /** What the words of a request parse to. */
  lemma RequestFields(q: Request, size: nat)
    requires WellFormed(q) && size <= U64_MAX
    ensures var ws := RequestWords(q, size);
            && |ws| >= (if q.verb.VCas? then 6 else 5) && ws[1] == q.key
            && VerbOf(Lower(ws[0])) == Some(q.verb)
            && ParseUnsigned(ws[2], U32_MAX).Some? && ParseUnsigned(ws[3], U64_MAX).Some?
            && ParseUnsigned(ws[4], U64_MAX) == Some(size)
            && StorageCommand(q.verb, ws, size) == CommandOf(q, size)
  {
    hide Keyword, Digits, VerbOf, Lower, ParseUnsigned, IsWord;
    KeywordFacts(q.verb);
    NoReplyFacts();
    UnsignedRoundTrip(q.flags, U32_MAX);
    UnsignedRoundTrip(q.exptime, U64_MAX);
    UnsignedRoundTrip(size, U64_MAX);
    UnsignedRoundTrip(q.token, U64_MAX);
  }

  /** The first pass reads the announced size off any well-formed request, and the second goes on from there. */
  lemma RequestPasses(q: Request, size: nat, rest: Bytes)
    requires WellFormed(q) && size <= U64_MAX
    ensures var b, n := HeaderOf(q, size) + rest, |HeaderOf(q, size)|;
            && Parse(b) == NeedData(n, size)
            && CommandLine(b) == Header(RequestWords(q, size), n)
            && var ws := RequestWords(q, size);
              && |ws| >= (if q.verb.VCas? then 6 else 5) && |ws[1]| <= MAX_KEY_LENGTH
              && ParseWithData(b) == WithData(b, q.verb, ws, n, size)
              && StorageCommand(q.verb, ws, size) == CommandOf(q, size)
  {
    var ws := RequestWords(q, size);
    RequestWordsAreWords(q, size);
    LineOfWords(ws, rest);
    RequestFields(q, size);
    var b, n := HeaderOf(q, size) + rest, |HeaderOf(q, size)|;
    FirstPassAsks(b, q.verb, ws, n, size);
    NeedDataMeans(b);
    hide CommandLine, Lower, VerbOf, ParseUnsigned, RequestWords, Join, IsWord, AllWords, WithData, StorageCommand,
         Parse, ParseWithData, HeaderOf, CommandOf;
  }

  lemma FirstPassAsks(b: Bytes, verb: Verb, ws: seq<Bytes>, n: nat, size: nat)
    requires CommandLine(b) == Header(ws, n) && ws != [] && VerbOf(Lower(ws[0])) == Some(verb)
    requires (IsStore(verb) && |ws| >= 5) || (verb.VCas? && |ws| >= 6)
    requires |ws[1]| <= MAX_KEY_LENGTH && ParseUnsigned(ws[4], U64_MAX) == Some(size)
    requires ParseUnsigned(ws[2], U32_MAX).Some? && ParseUnsigned(ws[3], U64_MAX).Some?
    ensures Parse(b) == NeedData(n, size)
  {
    hide CommandLine, Lower, VerbOf, ParseUnsigned;
  }

  /** Whatever the data bytes are, CRLF among them, a well-formed storage request (set, add, replace, append,
      prepend or cas) is understood as written: the first pass asks for exactly its data, the second returns
      exactly its fields, and the data block in the buffer is the data that was sent. */
  lemma StoreRequestRoundTrip(q: Request, data: Bytes, rest: Bytes)
    requires WellFormed(q) && |HeaderOf(q, |data|)| + |data| + 2 < U64
    ensures var header := HeaderOf(q, |data|);
            var b := header + data + CRLF + rest;
            && Parse(b) == NeedData(|header|, |data|)
            && ParseWithData(b) == Complete(CommandOf(q, |data|), |header| + |data| + 2)
            && b[|header|..|header| + |data|] == data
  {
    hide CommandLine, Parse, ParseWithData, WithData, StorageCommand, RequestWords, HeaderOf, WellFormed, CommandOf;
    var header := HeaderOf(q, |data|);
    var b := header + data + CRLF + rest;
    RequestPasses(q, |data|, data + CRLF + rest);
    assert b == header + (data + CRLF + rest);
    DataFits(b, q.verb, RequestWords(q, |data|), |header|, |data|);
  }

  /** A well-formed request that announces 2^64 - 2 bytes is complete to the second pass before any data arrives:
      for one, `set k 0 0 18446744073709551614` and CRLF. */
  lemma CompletesWithoutData(q: Request, rest: Bytes)
    requires WellFormed(q) && |HeaderOf(q, U64 - 2)| + |rest| <= I64_MAX
    ensures var b := HeaderOf(q, U64 - 2) + rest;
            ParseWithData(b) == Complete(CommandOf(q, U64 - 2), |HeaderOf(q, U64 - 2)|)
  {
    hide CommandLine, Parse, ParseWithData, WithData, StorageCommand, RequestWords, HeaderOf, WellFormed, CommandOf;
    var header := HeaderOf(q, U64 - 2);
    var b := header + rest;
    RequestPasses(q, U64 - 2, rest);
    HeaderEnds(b);
    DataWraps(b, q.verb, RequestWords(q, U64 - 2), |header|, U64 - 2);
  }

  lemma {:induction false} DigitsLength(n: nat)
    ensures |Digits(n)| <= n / 10 + 1
  {
    if n >= 10 {
      DigitsLength(n / 10);
    }
  }

  lemma CompletesWithoutDataExample()
    ensures var b := Join([SET, [107], Digits(0), Digits(0), Digits(18446744073709551614)]) + CRLF;
            ParseWithData(b) == Complete(Store(VSet, [107], 0, 0, 18446744073709551614, false), |b|)
  {
    var q := Request(VSet, [107], 0, 0, 0, false);
    PlainIsSpaceless([107]);
    assert WellFormed(q);
    var zero, size := Digits(0), Digits(18446744073709551614);
    DigitsLength(18446744073709551614);
    assert |zero| == 1;
    var ws := [SET, [107], zero, zero, size];
    hide CommandLine, Parse, ParseWithData, Digits;
    assert RequestWords(q, U64 - 2) == ws;
    FiveWords(SET, [107], zero, zero, size);
    assert HeaderOf(q, U64 - 2) + [] == Join(ws) + CRLF;
    CompletesWithoutData(q, []);
  }

  lemma FiveWords(a: Bytes, b: Bytes, c: Bytes, d: Bytes, e: Bytes)
    ensures |Join([a, b, c, d, e])| == |a| + |b| + |c| + |d| + |e| + 4
  {
    assert [a, b, c, d, e][1..] == [b, c, d, e];
    assert [b, c, d, e][1..] == [c, d, e];
    assert [c, d, e][1..] == [d, e];
    assert [d, e][1..] == [e];
    assert |Join([d, e])| == |d| + |e| + 1;
    assert |Join([c, d, e])| == |c| + |d| + |e| + 2;
    assert |Join([b, c, d, e])| == |b| + |c| + |d| + |e| + 3;
  }
}
