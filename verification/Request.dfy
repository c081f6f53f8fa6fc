/** Request processing between the parsers and the storage. */
module Request {
  import opened Base
  import opened Decimal
  import StorageSpec
  import StorageHistory
  import StorageLru
  import StorageSelfEviction
  import Storage
  import Memcached

  type Key = StorageSpec.Key

  // ---------------------------------------------------------------- storage commands

  /** The storage operation a parsed storage command stands for. */
  function OpOf(cmd: Memcached.Command, data: Bytes): StorageSpec.Op
    requires cmd.Cas? || (cmd.Store? && Memcached.IsStore(cmd.verb))
  {
    match cmd
    case Cas(k, flags, exptime, _, token, _) => StorageSpec.Cas(k, data, flags, exptime, token)
    case Store(verb, k, flags, exptime, _, _) =>
      match verb
      case VSet => StorageSpec.Set(k, data, flags, exptime)
      case VAdd => StorageSpec.Add(k, data, flags, exptime)
      case VReplace => StorageSpec.Replace(k, data, flags, exptime)
      case VAppend => StorageSpec.Append(k, data)
      case VPrepend => StorageSpec.Prepend(k, data)
  }

  /** `execute_storage_command`, its effect on the storage. */
  method ExecuteStorageCommand(cmd: Memcached.Command, data: Bytes, st: Storage.Storage, now: nat)
    returns (r: StorageSpec.Result, ghost evicted: seq<Key>)
    requires cmd.Cas? || (cmd.Store? && Memcached.IsStore(cmd.verb))
    requires st.Valid()
    modifies st
    ensures Storage.Recorded(old(st.history), st.history, StorageSpec.Event(OpOf(cmd, data), now, evicted, r))
    ensures r.Panicked? <==> StorageSpec.Overruns(st.config, old(st.View()), OpOf(cmd, data), now)
    ensures r.Panicked? ==> st.View() == old(st.View())
    ensures if cmd.Cas? && r.Panicked? then st.poisoned else st.Valid()
  {
    hide StorageSpec.Exec, StorageSpec.Legal;
    match cmd {
      case Cas(k, flags, exptime, _, token, _) => r, evicted := st.CompareAndSwap(k, data, flags, exptime, token, now);
      case Store(verb, k, flags, exptime, _, _) =>
        match verb {
          case VSet => r, evicted := st.SetItem(k, data, flags, exptime, now);
          case VAdd => r, evicted := st.AddItem(k, data, flags, exptime, now);
          case VReplace => r, evicted := st.ReplaceItem(k, data, flags, exptime, now);
          case VAppend => r, evicted := st.Extend(StorageSpec.Append(k, data), now);
          case VPrepend => r, evicted := st.Extend(StorageSpec.Prepend(k, data), now);
        }
    }
  }

  function VerbIn(cmd: Memcached.Command): Memcached.Verb
    requires cmd.Cas? || cmd.Store?
  {
    if cmd.Cas? then Memcached.VCas else cmd.verb
  }

  /** The item holds the data and the flags that came with the command, and ends when the command's time to live
      does: never, when that is 0 and so is the default. */
  predicate HoldsRequest(c: StorageSpec.Config, item: StorageSpec.Item, cmd: Memcached.Command, data: Bytes, now: nat)
    requires cmd.Cas? || cmd.Store?
  {
    && item.value == data
    && item.flags == cmd.flags
    && item.expiresAt == if cmd.exptime > 0 then Some(now + cmd.exptime)
                         else if c.defaultTtl > 0 then Some(now + c.defaultTtl)
                         else None
  }

  /** The item has a new value and keeps its flags and its expiry time. */
  predicate SameButValue(item: StorageSpec.Item, before: StorageSpec.Item, value: Bytes) {
    item.value == value && item.flags == before.flags && item.expiresAt == before.expiresAt
  }

  /** When a storage command panics and when it stores, on any run, told from the state before it; and what the key
      then holds: value, flags, expiry time and token. An append or prepend to a live key that is doomed destroys the
      item. */
  lemma StoreEffect(c: StorageSpec.Config, h: seq<StorageSpec.Event>, cmd: Memcached.Command, data: Bytes,
                    e: StorageSpec.Event)
    requires StorageSpec.ValidRun(c, h) && StorageHistory.NoWrap(h)
    requires cmd.Cas? || (cmd.Store? && Memcached.IsStore(cmd.verb))
    requires e.op == OpOf(cmd, data) && StorageSpec.Happens(c, StorageSpec.StateAfter(c, h), e)
    ensures var s, k := StorageSpec.StateAfter(c, h), cmd.key;
            var live := StorageSpec.Live(s, k, e.now);
            var inTime := StorageSpec.Representable(c, cmd.exptime, e.now);
            var s' := StorageSpec.Exec(c, s, e.op, e.now, e.evicted).0;
            var doomed := StorageSelfEviction.Doomed(c, s, StorageLru.Recency(h), e.op, e.now);
            && (e.result.Stored? <==>
                  match VerbIn(cmd)
                  case VSet => inTime
                  case VAdd => !live && inTime
                  case VReplace => live && inTime
                  case VCas => live && s.data[k].casUnique == cmd.casUnique && inTime
                  case _ => live && !doomed)
            && (e.result.Panicked? <==>
                  match VerbIn(cmd)
                  case VSet => !inTime
                  case VAdd => !live && !inTime
                  case VReplace => live && !inTime
                  case VCas => live && s.data[k].casUnique == cmd.casUnique && !inTime
                  case _ => false)
            && (e.result.Stored? ==>
                  && k in s'.data
                  && s'.data[k].casUnique == s.casCounter
                  && if VerbIn(cmd).VAppend? then SameButValue(s'.data[k], s.data[k], s.data[k].value + data)
                     else if VerbIn(cmd).VPrepend? then SameButValue(s'.data[k], s.data[k], data + s.data[k].value)
                     else HoldsRequest(c, s'.data[k], cmd, data, e.now))
            && (e.op.Append? || e.op.Prepend? ==> (k in s'.data <==> e.result.Stored?))
            && (e.result.Panicked? ==> s' == s)
  {
    hide StorageSpec.RemoveAll, StorageSpec.StateAfter, StorageLru.Recency, StorageSelfEviction.Doomed, Wrap;
    hide StorageSpec.Legal;
    if e.op.Append? || e.op.Prepend? {
      StorageLru.LruAgreesOnRuns(c, h);
      StorageSelfEviction.ExtendIff(c, StorageSpec.StateAfter(c, h), StorageLru.Recency(h), e);
      Storage.ExtendFacts(c, StorageSpec.StateAfter(c, h), e);
    }
  }

  datatype Outcome =
    | NeedData
    | NeedChain(commandLen: nat, valueLen: nat)
    | TooLarge(consumed: nat)
    | Executed(consumed: nat, result: StorageSpec.Result)
    | Panicked

  /** The announced length, wrapping the sum, makes the second pass or the slice of the data index out of bounds. */
  predicate Overflows(commandLen: nat, valueLen: nat) {
    commandLen + valueLen + 2 >= U64 && (commandLen + valueLen + 2 < U64 + 2 || valueLen == U64 - 2)
  }

  /** The storage operation a complete storage request asks for. */
  function RequestOp(input: Bytes): Option<StorageSpec.Op> {
    var first, second := Memcached.Parse(input), Memcached.ParseWithData(input);
    if first.NeedData? && second.Complete? && first.commandBytes + first.dataBytes <= |input|
       && (second.command.Cas? || (second.command.Store? && Memcached.IsStore(second.command.verb))) then
      Some(OpOf(second.command, input[first.commandBytes..first.commandBytes + first.dataBytes]))
    else None
  }

  /** The NeedData branch of `process_memcached`. It panics when the announced length overflows, and when the command
      reaches its store with an expiry time past the clock's range; a cas then leaves the data lock poisoned. */
  method ProcessStorage(input: Bytes, outputLen: nat, st: Storage.Storage, maxValueSize: nat, now: nat)
    returns (r: Outcome, ghost evicted: seq<Key>)
    requires st.Valid() && Memcached.Parse(input).NeedData? && |input| <= I64_MAX
    modifies st
    ensures !r.Executed? ==> st.history == old(st.history) && st.View() == old(st.View())
    ensures if st.poisoned then r.Panicked? && RequestOp(input).Some? && RequestOp(input).value.Cas? else st.Valid()
    ensures var c, d := Memcached.Parse(input).commandBytes, Memcached.Parse(input).dataBytes;
            var op := RequestOp(input);
            var late := op.Some? && StorageSpec.Overruns(st.config, old(st.View()), op.value, now);
            && (CrlfAt(input, c + d) ==> op.Some?)
            && (r.TooLarge? <==> d > maxValueSize)
            && (r.TooLarge? ==> r.consumed == c + 2)
            && (r.NeedChain? <==> d <= maxValueSize && |input| < Wrap(c + d + 2) && d > outputLen)
            && (r.NeedChain? ==> r == NeedChain(c, d))
            && (r.Panicked? <==> d <= maxValueSize && (Overflows(c, d) || (CrlfAt(input, c + d) && late)))
            && (r.Executed? <==> d <= maxValueSize && CrlfAt(input, c + d) && !late)
            && (r.Executed? ==>
                  && r.consumed == c + d + 2 <= |input| && !r.result.Panicked?
                  && op.Some? && st.history == old(st.history) + [StorageSpec.Event(op.value, now, evicted, r.result)])
  {
    hide Memcached.Parse, Memcached.ParseWithData, Wrap, StorageSpec.Overruns, RequestOp;
    evicted := [];
    var first := Memcached.Parse(input);
    var c, d := first.commandBytes, first.dataBytes;
    ArrivedRequest(input);
    if d > maxValueSize {
      return TooLarge(c + 2), [];
    }
    if |input| >= Wrap(c + d + 2) {
      SecondPass(input);
      var second := Memcached.ParseWithData(input);
      if second.Panicked? {
        r := Panicked;
      } else if second.Complete? {
        var end := Wrap(c + d);
        if end < c {
          return Panicked, [];
        }
        SecondPassVerb(input);
        var result;
        result, evicted := ExecuteStorageCommand(second.command, input[c..end], st, now);
        r := if result.Panicked? then Panicked else Executed(second.consumed, result);
      } else {
        r := NeedData;
      }
    } else {
      StillWaits(input);
      r := if d > outputLen then NeedChain(c, d) else NeedData;
    }
  }

  /** A request whose data block ends where it should stands for one operation. */
  lemma ArrivedRequest(b: Bytes)
    requires Memcached.Parse(b).NeedData? && |b| <= I64_MAX
    ensures var c, d := Memcached.Parse(b).commandBytes, Memcached.Parse(b).dataBytes;
            var second := Memcached.ParseWithData(b);
            CrlfAt(b, c + d) ==>
              && second.Complete?
              && (second.command.Cas? || (second.command.Store? && Memcached.IsStore(second.command.verb)))
              && RequestOp(b) == Some(OpOf(second.command, b[c..c + d]))
  {
    hide Memcached.Parse, Memcached.ParseWithData;
    if CrlfAt(b, Memcached.Parse(b).commandBytes + Memcached.Parse(b).dataBytes) {
      Memcached.TwoPassAgreement(b);
      SecondPassVerb(b);
    }
  }

  /** A well-formed request, written out, stands for the operation it names. */
  lemma RequestOpOf(q: Memcached.Request, data: Bytes, rest: Bytes)
    requires Memcached.WellFormed(q)
    requires |Memcached.HeaderOf(q, |data|)| + |data| + 2 + |rest| <= I64_MAX
    ensures var b := Memcached.HeaderOf(q, |data|) + data + CRLF + rest;
            RequestOp(b) == Some(match q.verb
                                 case VSet => StorageSpec.Set(q.key, data, q.flags, q.exptime)
                                 case VAdd => StorageSpec.Add(q.key, data, q.flags, q.exptime)
                                 case VReplace => StorageSpec.Replace(q.key, data, q.flags, q.exptime)
                                 case VAppend => StorageSpec.Append(q.key, data)
                                 case VPrepend => StorageSpec.Prepend(q.key, data)
                                 case VCas => StorageSpec.Cas(q.key, data, q.flags, q.exptime, q.token))
  {
    hide Memcached.Parse, Memcached.ParseWithData, Memcached.HeaderOf;
    Memcached.StoreRequestRoundTrip(q, data, rest);
  }

  /** A set request whose time to live reaches past the clock's range panics in every storage state and at every
      clock reading: its operation overruns. */
  lemma LateSetPanics(c: StorageSpec.Config, s: StorageSpec.State, q: Memcached.Request, data: Bytes, rest: Bytes,
                      now: nat)
    requires Memcached.WellFormed(q) && q.verb.VSet? && q.exptime > c.clockMax
    requires |Memcached.HeaderOf(q, |data|)| + |data| + 2 + |rest| <= I64_MAX
    ensures var op := RequestOp(Memcached.HeaderOf(q, |data|) + data + CRLF + rest);
            op.Some? && StorageSpec.Overruns(c, s, op.value, now)
  {
    hide RequestOp, Memcached.HeaderOf;
    RequestOpOf(q, data, rest);
  }

  /** For one, `set k 0 18446744073709551615 1` with the data `x`, where an instant's seconds are an i64. */
  lemma LateSetExample(c: StorageSpec.Config, s: StorageSpec.State, now: nat)
    requires c.clockMax == I64_MAX
    ensures var words := [Memcached.SET, [107], Digits(0), Digits(18446744073709551615), Digits(1)];
            var op := RequestOp(Memcached.Join(words) + CRLF + [120] + CRLF);
            op.Some? && StorageSpec.Overruns(c, s, op.value, now)
  {
    var q := Memcached.Request(Memcached.VSet, [107], 0, 18446744073709551615, 0, false);
    Memcached.PlainIsSpaceless([107]);
    assert Memcached.WellFormed(q);
    var words := [Memcached.SET, [107], Digits(0), Digits(18446744073709551615), Digits(1)];
    assert Memcached.RequestWords(q, 1) == words;
    Memcached.DigitsLength(18446744073709551615);
    assert |Digits(0)| == |Digits(1)| == 1;
    hide RequestOp, Digits, Memcached.WellFormed;
    Memcached.FiveWords(words[0], words[1], words[2], words[3], words[4]);
    LateSetPanics(c, s, q, [120], [], now);
    assert Memcached.HeaderOf(q, 1) + [120] + CRLF + [] == Memcached.Join(words) + CRLF + [120] + CRLF;
  }

  /** What the second pass and the end of its data slice come to, wrapped or not. */
  lemma SecondPass(b: Bytes)
    requires Memcached.Parse(b).NeedData? && |b| <= I64_MAX
    requires |b| >= Wrap(Memcached.Parse(b).commandBytes + Memcached.Parse(b).dataBytes + 2)
    ensures var c, d := Memcached.Parse(b).commandBytes, Memcached.Parse(b).dataBytes;
            var second := Memcached.ParseWithData(b);
            if c + d + 2 < U64 then
              && c + d + 2 <= |b| && Wrap(c + d) == c + d && !second.Panicked?
              && (second.Complete? <==> CrlfAt(b, c + d)) && (second.Complete? ==> second.consumed == c + d + 2)
            else
              && (second.Panicked? <==> c + d + 2 < U64 + 2) && (second.Complete? <==> d == U64 - 2)
              && (second.Complete? ==> Wrap(c + d) < c)
  {
    hide Memcached.Parse, Memcached.ParseWithData;
    var c, d := Memcached.Parse(b).commandBytes, Memcached.Parse(b).dataBytes;
    if c + d + 2 < U64 {
      Memcached.TwoPassAgreement(b);
    } else {
      Memcached.SecondPassWraps(b);
    }
  }

  lemma StillWaits(b: Bytes)
    requires Memcached.Parse(b).NeedData? && |b| <= I64_MAX
    requires |b| < Wrap(Memcached.Parse(b).commandBytes + Memcached.Parse(b).dataBytes + 2)
    ensures var c, d := Memcached.Parse(b).commandBytes, Memcached.Parse(b).dataBytes;
            !CrlfAt(b, c + d) && !Overflows(c, d)
  {
    Memcached.NeedDataMeans(b);
    hide Memcached.Parse, Memcached.ParseWithData, Memcached.CommandLine, Memcached.WithData;
  }

  lemma SecondPassVerb(b: Bytes)
    requires Memcached.ParseWithData(b).Complete?
    ensures var cmd := Memcached.ParseWithData(b).command; cmd.Cas? || (cmd.Store? && Memcached.IsStore(cmd.verb))
  {
    hide Memcached.CommandLine, Memcached.Lower, Memcached.VerbOf, ParseUnsigned, Memcached.NoReplyAt;
  }

  // ---------------------------------------------------------------- incr and decr

  function TrimStart(s: Bytes): Bytes
    decreases |s|
  {
    if s != [] && Memcached.SpaceChar(s[..Memcached.FirstChar(s)]) then TrimStart(s[Memcached.FirstChar(s)..]) else s
  }

  /** The length of the white-space character that well-formed text `s` ends with, if it does. */
  function SpaceAtEnd(s: Bytes): (r: nat)
    ensures r <= |s|
  {
    if |s| >= 1 && Memcached.SpaceChar(s[|s| - 1..]) then 1
    else if |s| >= 2 && Memcached.SpaceChar(s[|s| - 2..]) then 2
    else if |s| >= 3 && Memcached.SpaceChar(s[|s| - 3..]) then 3
    else 0
  }

  function TrimEnd(s: Bytes): Bytes
    decreases |s|
  {
    if SpaceAtEnd(s) > 0 then TrimEnd(s[..|s| - SpaceAtEnd(s)]) else s
  }

  /** The number a stored value denotes. */
  function NumberIn(value: Bytes): Option<nat> {
    if !Utf8(value) then None else ParseUnsigned(TrimEnd(TrimStart(value)), U64_MAX)
  }

  /** Addition wraps at 2^64, subtraction stops at 0. */
  function Bump(v: nat, delta: nat, isIncr: bool): (r: nat)
    ensures v <= U64_MAX ==> r <= U64_MAX
  {
    if isIncr then Wrap(v + delta) else if v >= delta then v - delta else 0
  }

  datatype Reply = Absent | NonNumeric | Number(value: nat) | Panics

  /** What is sent back. */
  function ReplyText(r: Reply, noreply: bool): Bytes
    requires r.Number?
  {
    if noreply then [] else Digits(r.value) + CRLF
  }

  /** `handle_incr_decr` on storage states: a get, and a set when the value is a number. The set takes the default time
      to live, and panics when that reaches past the clock's range. */
  function CounterExec(c: StorageSpec.Config, s: StorageSpec.State, k: Key, cmd: CounterCmd)
    : (StorageSpec.State, Reply)
  {
    var (s1, got) := StorageSpec.Exec(c, s, StorageSpec.Get(k), cmd.getNow, []);
    if !got.Hit? then (s1, Absent)
    else
      var current := NumberIn(got.item.value);
      if current.None? then (s1, NonNumeric)
      else
        var v := Bump(current.value, cmd.delta, cmd.isIncr);
        var op := StorageSpec.Set(k, Digits(v), got.item.flags, 0);
        var (s2, stored) := StorageSpec.Exec(c, s1, op, cmd.setNow, cmd.evicted);
        (s2, if stored.Panicked? then Panics else Number(v))
  }

  /** One incr or decr: its argument, the clock at its two storage calls, what its set evicted. */
  datatype CounterCmd = CounterCmd(delta: nat, isIncr: bool, noreply: bool, getNow: nat, setNow: nat, evicted: seq<Key>)

  /** `handle_incr_decr` */
  method HandleIncrDecr(st: Storage.Storage, k: Key, delta: nat, isIncr: bool, noreply: bool, getNow: nat, setNow: nat)
    returns (r: Reply, ghost cmd: CounterCmd)
    requires st.Valid()
    modifies st
    ensures st.Valid()
    ensures cmd.delta == delta && cmd.isIncr == isIncr && cmd.noreply == noreply
    ensures cmd.getNow == getNow && cmd.setNow == setNow
    ensures (st.View(), r) == CounterExec(st.config, old(st.View()), k, cmd)
  {
    hide NumberIn, Bump, Digits, StorageSpec.Exec, Utf8;
    cmd := CounterCmd(delta, isIncr, noreply, getNow, setNow, []);
    var got := st.GetItem(k, getNow);
    LastState(st.config, old(st.history), st.history);
    if got.Miss? {
      return Absent, cmd;
    }
    var current := NumberIn(got.item.value);
    if current.None? {
      return NonNumeric, cmd;
    }
    var v := Bump(current.value, delta, isIncr);
    ghost var before := st.history;
    var stored, evicted := st.SetItem(k, Digits(v), got.item.flags, 0, setNow);
    cmd := cmd.(evicted := evicted);
    if stored.Panicked? {
      LateSet(st.config, st.View(), StorageSpec.Set(k, Digits(v), got.item.flags, 0), setNow, evicted);
      return Panics, cmd;
    }
    LastState(st.config, before, st.history);
    r := Number(v);
  }

  lemma LateSet(c: StorageSpec.Config, s: StorageSpec.State, op: StorageSpec.Op, now: nat, evicted: seq<Key>)
    requires op.Set? && !StorageSpec.Representable(c, op.ttl, now)
    ensures StorageSpec.Exec(c, s, op, now, evicted) == (s, StorageSpec.Panicked)
  {
  }

  /** A run of one more call ends in the state that call leaves. */
  lemma LastState(c: StorageSpec.Config, h: seq<StorageSpec.Event>, h': seq<StorageSpec.Event>)
    requires StorageSpec.ValidRun(c, h')
    requires |h'| == |h| + 1 && h' == h + [h'[|h|]]
    ensures var e, s := h'[|h|], StorageSpec.StateAfter(c, h);
            (StorageSpec.StateAfter(c, h'), e.result) == StorageSpec.Exec(c, s, e.op, e.now, e.evicted)
  {
    assert h'[..|h'| - 1] == h;
  }

  // ---------------------------------------------------------------- sequences of incr and decr

  function Fold(v: nat, cmds: seq<CounterCmd>): nat
    decreases |cmds|
  {
    if cmds == [] then v
    else
      var last, sofar := cmds[|cmds| - 1], Fold(v, cmds[..|cmds| - 1]);
      if last.isIncr then (sofar + last.delta) % U64 else Max(sofar - last.delta, 0)
  }

  lemma NoSpaceAround(s: Bytes)
    requires s != [] && 33 <= s[0] < 0x80 && 33 <= s[|s| - 1] < 0x80
    ensures !Memcached.SpaceChar(s[..Memcached.FirstChar(s)]) && SpaceAtEnd(s) == 0
  {
    assert Memcached.FirstChar(s) == 1;
    PlainEnd(s[..1]);
    PlainEnd(s[|s| - 1..]);
    if |s| >= 2 {
      PlainEnd(s[|s| - 2..]);
    }
    if |s| >= 3 {
      PlainEnd(s[|s| - 3..]);
    }
    hide Memcached.SpaceChar;
  }

  lemma PlainEnd(ch: Bytes)
    requires ch != [] && 33 <= ch[|ch| - 1] < 0x80
    ensures !Memcached.SpaceChar(ch)
  {
  }

  lemma TrimDigits(n: nat)
    ensures TrimEnd(TrimStart(Digits(n))) == Digits(n)
  {
    ValueOfDigits(n);
    var s := Digits(n);
    assert IsDigit(s[0]) && IsDigit(s[|s| - 1]);
    NoSpaceAround(s);
    hide Memcached.SpaceChar, Memcached.FirstChar, SpaceAtEnd, Digits;
  }

  lemma NumberInDigits(n: nat)
    requires n <= U64_MAX
    ensures NumberIn(Digits(n)) == Some(n)
  {
    TrimDigits(n);
    PrintedIsPlain(n);
    UnsignedRoundTrip(n, U64_MAX);
  }

  /** One command on a key that holds the decimal text of `v`. */
  lemma CounterStep(c: StorageSpec.Config, s: StorageSpec.State, k: Key, cmd: CounterCmd, v: nat)
    requires v <= U64_MAX && StorageSpec.Live(s, k, cmd.getNow) && s.data[k].value == Digits(v)
    ensures var (s', r) := CounterExec(c, s, k, cmd);
            && k in s'.data && s'.data[k].flags == s.data[k].flags
            && if StorageSpec.Representable(c, 0, cmd.setNow) then
                 && r == Number(Bump(v, cmd.delta, cmd.isIncr))
                 && s'.data[k].value == Digits(Bump(v, cmd.delta, cmd.isIncr))
               else r == Panics && s'.data[k].value == Digits(v)
  {
    hide Digits, Wrap, NumberIn, Bump, StorageSpec.RemoveAll;
    NumberInDigits(v);
  }

  /** `before[i]` and `after[i]` are the storage when command `i` starts and ends; another one follows only if it was
      answered. Between commands anything may happen that leaves the key holding the same text, unexpired when the
      next command reads it. */
  ghost predicate CounterRun(c: StorageSpec.Config, k: Key, cmds: seq<CounterCmd>,
                             before: seq<StorageSpec.State>, after: seq<StorageSpec.State>) {
    && |before| == |after| == |cmds|
    && (forall i :: 0 <= i < |cmds| ==>
          StorageSpec.Live(before[i], k, cmds[i].getNow) && after[i] == CounterExec(c, before[i], k, cmds[i]).0)
    && (forall i :: 0 < i < |cmds| ==>
          && StorageSpec.Representable(c, 0, cmds[i - 1].setNow)
          && k in after[i - 1].data && before[i].data[k].value == after[i - 1].data[k].value)
  }

  /** Any sequence of incr and decr on a key that holds a u64 in decimal leaves the decimal text of the fold of
      addition modulo 2^64 and subtraction clamped at 0, and every reply prints the value reached; only a default time
      to live past the clock's range makes a command panic instead, which leaves the text alone. */
  lemma {:induction false} CounterArithmetic(c: StorageSpec.Config, k: Key, cmds: seq<CounterCmd>,
                                             before: seq<StorageSpec.State>, after: seq<StorageSpec.State>,
                                             v: nat, i: nat)
    requires CounterRun(c, k, cmds, before, after) && i < |cmds|
    requires v <= U64_MAX && before[0].data[k].value == Digits(v)
    ensures Fold(v, cmds[..i]) <= U64_MAX && before[i].data[k].value == Digits(Fold(v, cmds[..i]))
    ensures k in after[i].data
    ensures var r := CounterExec(c, before[i], k, cmds[i]).1;
            if StorageSpec.Representable(c, 0, cmds[i].setNow) then
              && after[i].data[k].value == Digits(Fold(v, cmds[..i + 1])) && r.Number?
              && ReplyText(r, cmds[i].noreply)
                 == if cmds[i].noreply then [] else Digits(Fold(v, cmds[..i + 1])) + CRLF
            else r == Panics && after[i].data[k].value == Digits(Fold(v, cmds[..i]))
    decreases i
  {
    hide CounterExec, Digits, Wrap, Fold, Bump, StorageSpec.Live;
    if i == 0 {
      assert cmds[..0] == [];
      NothingFolded(v);
    } else {
      CounterArithmetic(c, k, cmds, before, after, v, i - 1);
      FoldStep(v, cmds, i - 1);
    }
    FoldStep(v, cmds, i);
    CounterStep(c, before[i], k, cmds[i], Fold(v, cmds[..i]));
  }

  lemma NothingFolded(v: nat)
    ensures Fold(v, []) == v
  {
  }

  lemma FoldStep(v: nat, cmds: seq<CounterCmd>, i: nat)
    requires i < |cmds|
    ensures Fold(v, cmds[..i + 1]) == Bump(Fold(v, cmds[..i]), cmds[i].delta, cmds[i].isIncr)
    ensures Fold(v, cmds[..i]) <= U64_MAX ==> Fold(v, cmds[..i + 1]) <= U64_MAX
  {
    assert cmds[..i + 1][..i] == cmds[..i];
  }
}
