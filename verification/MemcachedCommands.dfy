/** The memcached commands without a data block: each is read back from the line a client writes for it,
    and every line that is accepted says exactly the command that comes out. */
module MemcachedCommands {
  import opened Base
  import opened Decimal
  import opened Memcached

  predicate LegalKey(key: Bytes) {
    IsWord(key) && |key| <= MAX_KEY_LENGTH
  }

  predicate LegalKeys(keys: seq<Bytes>) {
    keys != [] && forall i :: 0 <= i < |keys| ==> LegalKey(keys[i])
  }

  /** Commands a client can write on one line. */
  predicate Writable(c: Command) {
    match c
    case Get(keys) => LegalKeys(keys)
    case Gets(keys) => LegalKeys(keys)
    case Delete(key, _) => LegalKey(key)
    case Incr(key, v, _) => LegalKey(key) && v <= U64_MAX
    case Decr(key, v, _) => LegalKey(key) && v <= U64_MAX
    case FlushAll(delay, _) => delay <= U64_MAX
    case Store(_, _, _, _, _, _) => false
    case Cas(_, _, _, _, _, _) => false
    case _ => true
  }

  function NoReplyWord(noreply: bool): seq<Bytes> {
    if noreply then [NOREPLY] else []
  }

  /** The words of that line. */
  function Written(c: Command): seq<Bytes>
    requires Writable(c)
  {
    match c
    case Get(keys) => [GET] + keys
    case Gets(keys) => [GETS] + keys
    case Delete(key, noreply) => [DELETE, key] + NoReplyWord(noreply)
    case Incr(key, v, noreply) => [INCR, key, Digits(v)] + NoReplyWord(noreply)
    case Decr(key, v, noreply) => [DECR, key, Digits(v)] + NoReplyWord(noreply)
    case FlushAll(delay, noreply) => [FLUSH_ALL, Digits(delay)] + NoReplyWord(noreply)
    case Stats => [STATS]
    case Version => [VERSION]
    case Quit => [QUIT]
  }

  function LineOf(ws: seq<Bytes>): Bytes {
    Join(ws) + CRLF
  }

  function VerbFor(c: Command): Verb
    requires !IsStorageCommand(c)
  {
    match c
    case Get(_) => VGet
    case Gets(_) => VGets
    case Delete(_, _) => VDelete
    case Incr(_, _, _) => VIncr
    case Decr(_, _, _) => VDecr
    case FlushAll(_, _) => VFlushAll
    case Stats => VStats
    case Version => VVersion
    case Quit => VQuit
  }

  lemma WrittenWords(c: Command)
    requires Writable(c)
    ensures var ws := Written(c);
            ws != [] && AllWords(ws) && ws[0] == Keyword(VerbFor(c)) && VerbOf(Lower(ws[0])) == Some(VerbFor(c))
  {
    hide IsWord, Digits, VerbOf, Lower;
    KeywordFacts(VerbFor(c));
    NoReplyFacts();
    match c
    case Incr(_, v, _) => NumberIsWord(v);
    case Decr(_, v, _) => NumberIsWord(v);
    case FlushAll(delay, _) => NumberIsWord(delay);
    case _ =>
  }

  /** What the words after the verb are taken for. */
  lemma WrittenMeans(c: Command, n: nat)
    requires Writable(c)
    ensures var ws := Written(c);
            match VerbFor(c)
            case VGet => ParseGet(ws, false, n) == Complete(c, n)
            case VGets => ParseGet(ws, true, n) == Complete(c, n)
            case VDelete => ParseDelete(ws, n) == Complete(c, n)
            case VIncr => ParseIncrDecr(ws, true, n) == Complete(c, n)
            case VDecr => ParseIncrDecr(ws, false, n) == Complete(c, n)
            case VFlushAll => ParseFlushAll(ws, n) == Complete(c, n)
            case _ => true
  {
    hide Digits, Lower, ParseUnsigned, IsWord;
    NoReplyFacts();
    match c
    case Get(keys) => ShortMeansNone(Written(c), 1);
    case Gets(keys) => ShortMeansNone(Written(c), 1);
    case Incr(_, v, _) => UnsignedRoundTrip(v, U64_MAX);
    case Decr(_, v, _) => UnsignedRoundTrip(v, U64_MAX);
    case FlushAll(delay, _) =>
      UnsignedRoundTrip(delay, U64_MAX);
      NumberIsNotNoReply(delay);
    case _ =>
  }

  lemma {:induction false} ShortMeansNone(parts: seq<Bytes>, i: nat)
    requires forall k :: i <= k < |parts| ==> |parts[k]| <= MAX_KEY_LENGTH
    ensures FirstTooLong(parts, i) == None
    decreases |parts| - i
  {
    if i < |parts| {
      ShortMeansNone(parts, i + 1);
    }
  }

  lemma NumberIsNotNoReply(n: nat)
    ensures Lower(Digits(n)) != NOREPLY
  {
    hide Digits;
    ValueOfDigits(n);
    assert IsDigit(Digits(n)[0]);
    assert Lower(Digits(n))[0] == LowerByte(Digits(n)[0]);
  }

  /** Every command without data is understood as written, whatever follows its line. */
  lemma CommandRoundTrip(c: Command, rest: Bytes)
    requires Writable(c)
    ensures Parse(LineOf(Written(c)) + rest) == Complete(c, |LineOf(Written(c))|)
  {
    hide CommandLine, Join, Lower, VerbOf, Written, ParseGet, ParseDelete, ParseIncrDecr, ParseFlushAll, Keyword;
    var ws := Written(c);
    WrittenWords(c);
    LineOfWords(ws, rest);
    WrittenMeans(c, |LineOf(ws)|);
  }

  /** `flush_all` without a delay flushes at once. */
  lemma BareFlushRoundTrip(noreply: bool, rest: Bytes)
    ensures var line := LineOf([FLUSH_ALL] + NoReplyWord(noreply));
            Parse(line + rest) == Complete(FlushAll(0, noreply), |line|)
  {
    hide CommandLine, Join, Lower, VerbOf, IsWord;
    var ws := [FLUSH_ALL] + NoReplyWord(noreply);
    KeywordFacts(VFlushAll);
    NoReplyFacts();
    LineOfWords(ws, rest);
  }

  // ---------------------------------------------------------------- what is refused

  /** A get of any number of keys: complete with exactly those keys when all are short enough, and otherwise
      refused for the first that is too long. */
  lemma GetLine(withCas: bool, keys: seq<Bytes>, rest: Bytes)
    requires keys != [] && AllWords(keys)
    ensures var line := LineOf([if withCas then GETS else GET] + keys);
            var r := Parse(line + rest);
            && (ShortKeys(keys) ==> r == Complete(if withCas then Gets(keys) else Get(keys), |line|))
            && forall k :: 0 <= k < |keys| && ShortKeys(keys[..k]) && |keys[k]| > MAX_KEY_LENGTH ==>
              r == Error(KeyTooLong(keys[k]))
  {
    hide CommandLine, Join, Lower, VerbOf, IsWord, FirstTooLong;
    var verb := if withCas then VGets else VGet;
    var ws := [Keyword(verb)] + keys;
    KeywordFacts(verb);
    LineOfWords(ws, rest);
    assert ws[1..] == keys;
    if ShortKeys(keys) {
      ShortMeansNone(ws, 1);
    }
    forall k | 0 <= k < |keys| && ShortKeys(keys[..k]) && |keys[k]| > MAX_KEY_LENGTH
      ensures FirstTooLong(ws, 1) == Some(keys[k])
    {
      assert forall j :: 0 <= j < k ==> keys[j] == keys[..k][j];
      LongMeansFirst(ws, 1, k + 1);
    }
  }

  lemma {:induction false} LongMeansFirst(parts: seq<Bytes>, i: nat, k: nat)
    requires i <= k < |parts| && |parts[k]| > MAX_KEY_LENGTH
    requires forall j :: i <= j < k ==> |parts[j]| <= MAX_KEY_LENGTH
    ensures FirstTooLong(parts, i) == Some(parts[k])
    decreases |parts| - i
  {
    if i < k {
      LongMeansFirst(parts, i + 1, k);
    }
  }

  /** A delete, incr or decr line is refused exactly when a word is missing, the key is too long or the amount
      is no number, in this order; otherwise it is complete. */
  lemma KeyedLine(verb: Verb, args: seq<Bytes>, rest: Bytes)
    requires verb.VDelete? || verb.VIncr? || verb.VDecr?
    requires AllWords(args)
    ensures var line := LineOf([Keyword(verb)] + args);
            var r := Parse(line + rest);
            if |args| < (if verb.VDelete? then 1 else 2) then r == Error(InvalidCommand)
            else if |args[0]| > MAX_KEY_LENGTH then r == Error(KeyTooLong(args[0]))
            else if !verb.VDelete? && ParseUnsigned(args[1], U64_MAX).None? then r == Error(InvalidNumber)
            else r.Complete? && !IsStorageCommand(r.command) && VerbFor(r.command) == verb && r.command.key == args[0]
  {
    hide CommandLine, Join, Lower, VerbOf, IsWord, ParseUnsigned;
    var ws := [Keyword(verb)] + args;
    KeywordFacts(verb);
    LineOfWords(ws, rest);
    if |args| >= 2 && ParseUnsigned(args[1], U64_MAX).Some? {
      BoundedNumber(args[1], U64_MAX);
    }
  }

  // ---------------------------------------------------------------- every accepted line

  predicate IsNoReply(ws: seq<Bytes>, i: nat) {
    i < |ws| && Lower(ws[i]) == NOREPLY
  }

  /** The words `ws` say the command `c`. The verb and `noreply` may be in any case, a number may carry a plus
      sign and leading zeros, and words after the last that matters are ignored. */
  predicate Says(ws: seq<Bytes>, c: Command) {
    && ws != []
    && !IsStorageCommand(c)
    && Lower(ws[0]) == Keyword(VerbFor(c))
    && Arguments(ws, c)
  }

  predicate Arguments(ws: seq<Bytes>, c: Command)
    requires ws != [] && !IsStorageCommand(c)
  {
    match c
    case Get(keys) => ws == [ws[0]] + keys && keys != [] && ShortKeys(keys)
    case Gets(keys) => ws == [ws[0]] + keys && keys != [] && ShortKeys(keys)
    case Delete(key, noreply) => [ws[0], key] <= ws && |key| <= MAX_KEY_LENGTH && noreply == IsNoReply(ws, 2)
    case Incr(key, v, noreply) => Changes(ws, key, v) && noreply == IsNoReply(ws, 3)
    case Decr(key, v, noreply) => Changes(ws, key, v) && noreply == IsNoReply(ws, 3)
    case FlushAll(delay, noreply) =>
      && noreply == (IsNoReply(ws, 1) || IsNoReply(ws, 2))
      && delay == if |ws| > 1 && !IsNoReply(ws, 1) then OrZero(ParseUnsigned(ws[1], U64_MAX)) else 0
    case _ => true
  }

  predicate Changes(ws: seq<Bytes>, key: Bytes, v: nat) {
    |ws| > 2 && ws[1] == key && |key| <= MAX_KEY_LENGTH && ParseUnsigned(ws[2], U64_MAX) == Some(v)
  }

  /** A verb is recognised by its keyword alone. */
  lemma VerbNamed(name: Bytes)
    requires VerbOf(name).Some?
    ensures name == Keyword(VerbOf(name).value)
  {
  }

  lemma GetArguments(ws: seq<Bytes>, withCas: bool, n: nat)
    requires ws != []
    ensures var r := ParseGet(ws, withCas, n);
            && (r.Complete? <==> |ws| > 1 && ShortKeys(ws[1..]))
            && (r.Complete? ==> r == Complete(if withCas then Gets(ws[1..]) else Get(ws[1..]), n))
  {
    if FirstTooLong(ws, 1).Some? {
      var k := LongKey(ws, 1);
      assert ws[1..][k - 1] == ws[k];
    } else {
      NoneMeansShort(ws, 1);
    }
  }

  lemma {:induction false} LongKey(parts: seq<Bytes>, i: nat) returns (k: nat)
    requires FirstTooLong(parts, i).Some?
    ensures i <= k < |parts| && |parts[k]| > MAX_KEY_LENGTH
    decreases |parts| - i
  {
    if |parts[i]| > MAX_KEY_LENGTH {
      k := i;
    } else {
      k := LongKey(parts, i + 1);
    }
  }

  lemma {:induction false} NoneMeansShort(parts: seq<Bytes>, i: nat)
    requires FirstTooLong(parts, i).None?
    ensures forall k :: i <= k < |parts| ==> |parts[k]| <= MAX_KEY_LENGTH
    decreases |parts| - i
  {
    if i < |parts| {
      NoneMeansShort(parts, i + 1);
    }
  }

  lemma ByVerb(b: Bytes, ws: seq<Bytes>, n: nat, c: Command)
    requires CommandLine(b) == Header(ws, n) && ws != [] && !IsStorageCommand(c)
    requires VerbOf(Lower(ws[0])) == Some(VerbFor(c))
    ensures Parse(b) == Complete(c, n) <==> Arguments(ws, c)
  {
    hide CommandLine, Lower, VerbOf, ParseUnsigned, ParseGet;
    GetArguments(ws, c.Gets?, n);
    match c
    case Get(keys) => assert ws == [ws[0]] + keys <==> ws[1..] == keys;
    case Gets(keys) => assert ws == [ws[0]] + keys <==> ws[1..] == keys;
    case _ =>
  }

  lemma VerbOfResult(b: Bytes)
    requires Parse(b).Complete?
    ensures CommandLine(b).Header? && !IsStorageCommand(Parse(b).command)
    ensures var h := CommandLine(b);
            Parse(b).consumed == h.bytes && VerbOf(Lower(h.parts[0])) == Some(VerbFor(Parse(b).command))
  {
    hide CommandLine, Lower, VerbOf, ParseUnsigned, FirstTooLong;
  }

  /** A line is accepted as a command exactly when its words say that command. */
  lemma AcceptedIff(b: Bytes, c: Command, n: nat)
    ensures Parse(b) == Complete(c, n) <==>
            CommandLine(b).Header? && CommandLine(b).bytes == n && Says(CommandLine(b).parts, c)
  {
    hide CommandLine, Lower, VerbOf, Parse, Keyword, Arguments;
    if Parse(b) == Complete(c, n) {
      VerbOfResult(b);
      var ws := CommandLine(b).parts;
      VerbNamed(Lower(ws[0]));
      ByVerb(b, ws, n, c);
    } else if CommandLine(b).Header? && !IsStorageCommand(c) {
      var ws := CommandLine(b).parts;
      if Lower(ws[0]) == Keyword(VerbFor(c)) {
        KeywordFacts(VerbFor(c));
        ByVerb(b, ws, CommandLine(b).bytes, c);
      }
    }
  }
}
