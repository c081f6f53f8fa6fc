/** Replies to get and gets, and what a client finds in them after a storage request, from bytes to bytes. */
module RequestReplies {
  import opened Base
  import opened Decimal
  import StorageSpec
  import StorageHistory
  import Storage
  import Memcached
  import MemcachedCommands
  import Request

  type Key = StorageSpec.Key
  type Item = StorageSpec.Item

  const VALUE: Bytes := [86, 65, 76, 85, 69]
  const END: Bytes := [69, 78, 68]

  // ---------------------------------------------------------------- writing

  function BlockWords(k: Key, item: Item, withCas: bool): seq<Bytes> {
    [VALUE, k, Digits(item.flags), Digits(|item.value|)] + (if withCas then [PrintInt(item.casUnique)] else [])
  }

  /** `Response::value` */
  function Block(k: Key, item: Item, withCas: bool): Bytes {
    Memcached.Join(BlockWords(k, item, withCas)) + CRLF + item.value + CRLF
  }

  function GetReply(items: seq<(Key, Item)>, withCas: bool): Bytes {
    if items == [] then END + CRLF else Block(items[0].0, items[0].1, withCas) + GetReply(items[1..], withCas)
  }

  /** `execute_command` of get and gets: look the keys up, then append one block after the other. */
  method ExecuteGet(st: Storage.Storage, keys: seq<Key>, withCas: bool, now: nat) returns (response: Bytes)
    requires st.Valid()
    modifies st
    ensures st.Valid()
    ensures response == GetReply(StorageSpec.Hits(old(st.data), keys, now), withCas)
    ensures st.history == old(st.history) + [StorageSpec.Event(StorageSpec.GetMulti(keys), now, [],
                                                 StorageSpec.Items(StorageSpec.Hits(old(st.data), keys, now)))]
  {
    hide Block;
    var got := st.GetItems(keys, now);
    var items := got.items;
    response := [];
    assert items[0..] == items;
    for i := 0 to |items|
      invariant response + GetReply(items[i..], withCas) == GetReply(items, withCas)
    {
      var block := Block(items[i].0, items[i].1, withCas);
      assert items[i..][1..] == items[i + 1..];
      assert response + (block + GetReply(items[i + 1..], withCas))
             == response + block + GetReply(items[i + 1..], withCas);
      response := response + block;
    }
    response := response + (END + CRLF);
  }

  // ---------------------------------------------------------------- reading

  /** A value as a client reads it; `token` is there in the reply to gets. */
  datatype Entry = Entry(key: Bytes, flags: nat, value: Bytes, token: Option<nat>)

  /** The value that starts behind a header of these words and `n` bytes, by the length the header announces, and
      where it ends. */
  function ReadValue(b: Bytes, parts: seq<Bytes>, n: nat): (r: Option<(Entry, nat)>)
    ensures r.Some? ==> n + 2 <= r.value.1 <= |b|
  {
    if |parts| < 4 || parts[0] != VALUE then None
    else
      var flags, len := ParseUnsigned(parts[2], U32_MAX), ParseUnsigned(parts[3], U64_MAX);
      if flags.None? || len.None? || |b| < n + len.value + 2 then None
      else
        var token := if |parts| > 4 then ParseUnsigned(parts[4], U64_MAX) else None;
        Some((Entry(parts[1], flags.value, b[n..n + len.value], token), n + len.value + 2))
  }

  /** The values of the reply that `b` starts with, as a client reads it: block by block. */
  function ReadReply(b: Bytes): Option<seq<Entry>>
    decreases |b|
  {
    match Memcached.CommandLine(b)
    case Bad(_) => None
    case Header(parts, n) =>
      if parts == [END] then Some([])
      else
        var one := ReadValue(b, parts, n);
        if one.None? then None
        else
          var rest := ReadReply(b[one.value.1..]);
          if rest.None? then None else Some([one.value.0] + rest.value)
  }

  predicate Readable(k: Key, item: Item) {
    && Memcached.IsWord(k)
    && item.flags <= U32_MAX
    && |item.value| <= U64_MAX
    && 0 <= item.casUnique <= U64_MAX
  }

  function EntryOf(k: Key, item: Item, withCas: bool): Entry
    requires Readable(k, item)
  {
    Entry(k, item.flags, item.value, if withCas then Some(item.casUnique) else None)
  }

  function Entries(items: seq<(Key, Item)>, withCas: bool): seq<Entry>
    requires forall i :: 0 <= i < |items| ==> Readable(items[i].0, items[i].1)
  {
    if items == [] then [] else [EntryOf(items[0].0, items[0].1, withCas)] + Entries(items[1..], withCas)
  }

  lemma WordsOfBlock(k: Key, item: Item, withCas: bool)
    requires Readable(k, item)
    ensures Memcached.AllWords(BlockWords(k, item, withCas))
    ensures PrintInt(item.casUnique) == Digits(item.casUnique)
  {
    hide Memcached.IsWord, Digits;
    ValueIsWord();
    Memcached.NumberIsWord(item.flags);
    Memcached.NumberIsWord(|item.value|);
    Memcached.NumberIsWord(item.casUnique);
  }

  lemma ValueIsWord()
    ensures Memcached.IsWord(VALUE) && Memcached.IsWord(END) && VALUE != END
  {
    hide Memcached.Spaceless;
    Memcached.PlainIsSpaceless(VALUE);
    Memcached.PlainIsSpaceless(END);
    assert |VALUE| != |END|;
  }

  /** How a block is taken apart: its header, `len` bytes, two more bytes, the rest. */
  lemma BlockLayout(head: Bytes, value: Bytes, rest: Bytes)
    ensures var b, n := head + CRLF + value + CRLF + rest, |head| + 2;
            && n + |value| + 2 <= |b|
            && b[n..n + |value|] == value
            && b[n + |value| + 2..] == rest
            && b == head + CRLF + (value + CRLF + rest)
  {
  }

  lemma ReadHeader(b: Bytes, ws: seq<Bytes>, n: nat, entry: Entry, end: nat)
    requires Memcached.CommandLine(b) == Memcached.Header(ws, n) && |ws| >= 4
    requires ReadValue(b, ws, n) == Some((entry, end)) && end <= |b| && ReadReply(b[end..]).Some?
    ensures ReadReply(b) == Some([entry] + ReadReply(b[end..]).value)
  {
    hide Memcached.CommandLine, ReadValue;
    assert |ws| > |[END]|;
  }

  /** A client that reads one block has exactly its value, and goes on behind it. */
  lemma ReadBlock(k: Key, item: Item, withCas: bool, rest: Bytes)
    requires Readable(k, item) && ReadReply(rest).Some?
    ensures ReadReply(Block(k, item, withCas) + rest)
            == Some([EntryOf(k, item, withCas)] + ReadReply(rest).value)
  {
    hide Memcached.CommandLine, Memcached.IsWord, Memcached.Join, Digits, ParseUnsigned, PrintInt, Memcached.AllWords,
         ReadReply;
    var ws := BlockWords(k, item, withCas);
    WordsOfBlock(k, item, withCas);
    UnsignedRoundTrip(item.flags, U32_MAX);
    UnsignedRoundTrip(|item.value|, U64_MAX);
    UnsignedRoundTrip(item.casUnique, U64_MAX);
    var head := Memcached.Join(ws);
    var b := Block(k, item, withCas) + rest;
    BlockLayout(head, item.value, rest);
    Memcached.LineOfWords(ws, item.value + CRLF + rest);
    ReadHeader(b, ws, |head| + 2, EntryOf(k, item, withCas), |head| + 2 + |item.value| + 2);
  }

  /** Whatever bytes the values hold, a client reads exactly the items back from the reply to get or gets. */
  lemma {:induction false} ReplyRoundTrip(items: seq<(Key, Item)>, withCas: bool, rest: Bytes)
    requires forall i :: 0 <= i < |items| ==> Readable(items[i].0, items[i].1)
    ensures ReadReply(GetReply(items, withCas) + rest) == Some(Entries(items, withCas))
    decreases |items|
  {
    hide Readable, Block, EntryOf, ReadReply;
    if items == [] {
      ReadEnd(rest);
    } else {
      var k, item := items[0].0, items[0].1;
      ReplyRoundTrip(items[1..], withCas, rest);
      ReadBlock(k, item, withCas, GetReply(items[1..], withCas) + rest);
      assert GetReply(items, withCas) + rest == Block(k, item, withCas) + (GetReply(items[1..], withCas) + rest);
    }
  }

  lemma ReadEnd(rest: Bytes)
    ensures ReadReply(END + CRLF + rest) == Some([])
  {
    hide Memcached.CommandLine;
    ValueIsWord();
    Memcached.LineOfWords([END], rest);
    assert Memcached.Join([END]) == END;
  }

  // ---------------------------------------------------------------- from request to reply

  /** What the get or gets line at the front of `b` is answered in state `s`. */
  function GetAnswer(s: StorageSpec.State, b: Bytes, now: nat): Option<Bytes> {
    match Memcached.Parse(b)
    case Complete(Get(keys), _) => Some(GetReply(StorageSpec.Hits(s.data, keys, now), false))
    case Complete(Gets(keys), _) => Some(GetReply(StorageSpec.Hits(s.data, keys, now), true))
    case _ => None
  }

  /** A get of one key. */
  function GetRequest(k: Bytes): Bytes {
    Memcached.Join([Memcached.GET, k]) + CRLF
  }

  /** The reply to a get of one key that hits. */
  function OneValue(k: Bytes, flags: nat, data: Bytes): Bytes {
    Memcached.Join([VALUE, k, Digits(flags), Digits(|data|)]) + CRLF + data + CRLF + END + CRLF
  }

  lemma OneItem(k: Key, item: Item)
    ensures GetReply([(k, item)], false) == OneValue(k, item.flags, item.value)
  {
    hide Memcached.Join, Digits;
    assert [(k, item)][1..] == [];
    assert BlockWords(k, item, false) == [VALUE, k, Digits(item.flags), Digits(|item.value|)];
  }

  /** A get of one key answers that key's value and flags, or just the end line, as the key is live or not. */
  lemma GetOne(s: StorageSpec.State, k: Bytes, rest: Bytes, now: nat)
    requires MemcachedCommands.LegalKey(k)
    ensures GetAnswer(s, GetRequest(k) + rest, now)
            == Some(if StorageSpec.Live(s, k, now) then OneValue(k, s.data[k].flags, s.data[k].value) else END + CRLF)
  {
    hide Memcached.Parse, Memcached.Join, Digits, OneValue;
    var c := Memcached.Get([k]);
    MemcachedCommands.CommandRoundTrip(c, rest);
    assert MemcachedCommands.Written(c) == [Memcached.GET, k];
    StorageHistory.HitsOne(s.data, k, now);
    if StorageSpec.Live(s, k, now) {
      OneItem(k, s.data[k]);
    }
  }

  /** A get or gets of any number of keys: the client reads exactly the live ones, in the order it asked for them, each
      with its flags and value, and with its token from gets. */
  lemma GetReads(s: StorageSpec.State, keys: seq<Bytes>, withCas: bool, rest: Bytes, now: nat)
    requires MemcachedCommands.LegalKeys(keys)
    requires forall k :: k in keys && StorageSpec.Live(s, k, now) ==> Readable(k, s.data[k])
    ensures var items := StorageSpec.Hits(s.data, keys, now);
            var line := Memcached.Join([if withCas then Memcached.GETS else Memcached.GET] + keys) + CRLF;
            var reply := GetAnswer(s, line + rest, now);
            && (forall i :: 0 <= i < |items| ==> Readable(items[i].0, items[i].1))
            && reply.Some? && ReadReply(reply.value) == Some(Entries(items, withCas))
  {
    hide Memcached.Parse, Memcached.Join, Readable, ReadReply;
    var items := StorageSpec.Hits(s.data, keys, now);
    var c := if withCas then Memcached.Gets(keys) else Memcached.Get(keys);
    MemcachedCommands.CommandRoundTrip(c, rest);
    StorageHistory.HitsAreLive(s.data, keys, now);
    assert forall i :: 0 <= i < |items| ==> items[i] in items;
    ReplyRoundTrip(items, withCas, []);
    assert GetReply(items, withCas) + [] == GetReply(items, withCas);
  }

  /** A storage request as a client writes it, whole. */
  function StoreRequest(q: Memcached.Request, data: Bytes): Bytes {
    Memcached.HeaderOf(q, |data|) + data + CRLF
  }

  /** On bytes: a well-formed set request, whatever its data, followed at any later time by a get of its key. In every
      storage state, whatever the set evicts, the get answers exactly that request's data and flags until the request's
      time to live ends, and nothing from then on; when the expiry time is past the clock's range the set panics. */
  lemma SetThenGetBytes(c: StorageSpec.Config, s: StorageSpec.State, q: Memcached.Request, data: Bytes,
                        evicted: seq<Key>, now: nat, later: nat, rest: Bytes)
    requires Memcached.WellFormed(q) && q.verb.VSet? && |StoreRequest(q, data)| <= I64_MAX
    ensures var op := Request.RequestOp(StoreRequest(q, data));
            && op.Some?
            && var (s', answer) := StorageSpec.Exec(c, s, op.value, now, evicted);
               var reply := GetAnswer(s', GetRequest(q.key) + rest, later);
               var life := if q.exptime > 0 then q.exptime else c.defaultTtl;
               if life > 0 && now + life > c.clockMax then answer == StorageSpec.Panicked && s' == s
               else
                 && answer == StorageSpec.Stored
                 && reply == Some(if life == 0 || later < now + life then OneValue(q.key, q.flags, data)
                                  else END + CRLF)
  {
    hide Memcached.HeaderOf, Request.RequestOp, GetAnswer, OneValue, GetRequest;
    Request.RequestOpOf(q, data, []);
    assert Memcached.HeaderOf(q, |data|) + data + CRLF + [] == StoreRequest(q, data);
    var op := Request.RequestOp(StoreRequest(q, data)).value;
    var s' := StorageSpec.Exec(c, s, op, now, evicted).0;
    StorageHistory.SetThenGet(c, s, q.key, data, q.flags, q.exptime, now, evicted, later);
    GetOne(s', q.key, rest, later);
  }

  /** What a stored request makes the value of its key: the data it came with, or the old value with that data behind or
      before it. */
  function Combined(verb: Memcached.Verb, data: Bytes, before: Bytes): Bytes {
    if verb.VAppend? then before + data else if verb.VPrepend? then data + before else data
  }

  /** When a stored request lets its item end. */
  function EndOf(c: StorageSpec.Config, q: Memcached.Request, now: nat): Option<nat> {
    if q.exptime > 0 then Some(now + q.exptime)
    else if c.defaultTtl > 0 then Some(now + c.defaultTtl)
    else None
  }

  /** On bytes and on every run: any of the six storage requests that is stored, followed by a get of its key. The get
      answers the new value, with the flags and until the end that the request asks for; an append or prepend keeps the
      flags and the end the item had. */
  lemma StoreThenGetBytes(c: StorageSpec.Config, h: seq<StorageSpec.Event>, q: Memcached.Request, data: Bytes,
                          e: StorageSpec.Event, later: nat, rest: Bytes)
    requires StorageSpec.ValidRun(c, h) && StorageHistory.NoWrap(h)
    requires Memcached.WellFormed(q) && |StoreRequest(q, data)| <= I64_MAX
    requires Request.RequestOp(StoreRequest(q, data)) == Some(e.op)
    requires StorageSpec.Happens(c, StorageSpec.StateAfter(c, h), e) && e.result.Stored?
    ensures var s := StorageSpec.StateAfter(c, h);
            var s' := StorageSpec.Exec(c, s, e.op, e.now, e.evicted).0;
            var grows := q.verb.VAppend? || q.verb.VPrepend?;
            && (grows ==> q.key in s.data)
            && var value := Combined(q.verb, data, if grows then s.data[q.key].value else []);
               var flags := if grows then s.data[q.key].flags else q.flags;
               var end := if grows then s.data[q.key].expiresAt else EndOf(c, q, e.now);
               GetAnswer(s', GetRequest(q.key) + rest, later)
               == Some(if end.None? || later < end.value then OneValue(q.key, flags, value) else END + CRLF)
  {
    hide Memcached.HeaderOf, Request.RequestOp, GetAnswer, OneValue, GetRequest, StorageSpec.Exec,
         StorageSpec.StateAfter, StorageSpec.Happens, StorageSpec.ValidRun;
    var cmd := Memcached.CommandOf(q, |data|);
    Request.RequestOpOf(q, data, []);
    assert Memcached.HeaderOf(q, |data|) + data + CRLF + [] == StoreRequest(q, data);
    assert e.op == Request.OpOf(cmd, data);
    Request.StoreEffect(c, h, cmd, data, e);
    var s' := StorageSpec.Exec(c, StorageSpec.StateAfter(c, h), e.op, e.now, e.evicted).0;
    GetOne(s', q.key, rest, later);
  }
}
