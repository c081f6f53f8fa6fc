/** What the public history of a storage determines: contents of hits, CAS tokens. */
module StorageHistory {
  import opened Base
  import opened StorageSpec

  /** An upper bound on how often a call advances either 64-bit counter. */
  function Weight(op: Op): nat {
    if op.GetMulti? then |op.keys| + 1 else 1
  }

  function TotalWeight(h: seq<Event>): nat
    decreases |h|
  {
    if h == [] then 0 else TotalWeight(h[..|h| - 1]) + Weight(h[|h| - 1].op)
  }

  /** The run is short enough for neither 64-bit counter to have wrapped. */
  predicate NoWrap(h: seq<Event>) {
    TotalWeight(h) < U64 - 1
  }

  function StoredCount(h: seq<Event>): nat
    decreases |h|
  {
    if h == [] then 0 else StoredCount(h[..|h| - 1]) + (if h[|h| - 1].result.Stored? then 1 else 0)
  }

  /** The call successfully wrote key `k`. */
  predicate Writes(e: Event, k: Key) {
    e.result.Stored? && !e.op.GetMulti? && !e.op.FlushAll? && e.op.key == k
  }

  predicate Erases(e: Event, k: Key) {
    e.op.FlushAll? || (e.op.Delete? && e.op.key == k)
  }

  /** What key `k` should hold, from the answered calls alone: the last overwrite with the later
      appends and prepends applied in order. Nothing here looks at the storage's state, its
      evictions or its expirations. */
  function LastWrite(c: Config, h: seq<Event>, k: Key): Option<Item>
    decreases |h|
  {
    if h == [] then None
    else
      var e, before := h[|h| - 1], h[..|h| - 1];
      if Erases(e, k) then None
      else if !Writes(e, k) then LastWrite(c, before, k)
      else
        var token := 1 + StoredCount(before);
        match e.op
        case Append(_, v) => Rewritten(LastWrite(c, before, k), [], v, token)
        case Prepend(_, v) => Rewritten(LastWrite(c, before, k), v, [], token)
        case Set(_, v, f, ttl) => Some(Item(v, f, Expiry(c, ttl, e.now), token))
        case Add(_, v, f, ttl) => Some(Item(v, f, Expiry(c, ttl, e.now), token))
        case Replace(_, v, f, ttl) => Some(Item(v, f, Expiry(c, ttl, e.now), token))
        case Cas(_, v, f, ttl, _) => Some(Item(v, f, Expiry(c, ttl, e.now), token))
        case _ => None
  }

  /** The item with bytes added in front and behind, and a new token. */
  function Rewritten(item: Option<Item>, front: Bytes, back: Bytes, token: nat): Option<Item> {
    if item.None? then None
    else Some(item.value.(value := front + item.value.value + back, casUnique := token))
  }

  // ---------------------------------------------------------------- the storage agrees with its history

  /** Every item held is the one its history determines. */
  ghost predicate Mirrors(c: Config, s: State, h: seq<Event>) {
    && s.casCounter == 1 + StoredCount(h)
    && forall k :: k in s.data ==> LastWrite(c, h, k) == Some(s.data[k])
  }

  lemma {:induction false} StoredAtMostWeight(h: seq<Event>)
    ensures StoredCount(h) <= TotalWeight(h)
    decreases |h|
  {
    if h != [] {
      StoredAtMostWeight(h[..|h| - 1]);
    }
  }

  /** Items other than `k` were kept as they were or dropped. */
  ghost predicate OthersKept(s: State, s': State, k: Option<Key>) {
    forall j :: j in s'.data && k != Some(j) ==> j in s.data && s'.data[j] == s.data[j]
  }

  lemma MirrorsKeep(c: Config, s: State, s': State, h: seq<Event>, e: Event)
    requires Mirrors(c, s, h)
    requires !e.result.Stored? && s'.casCounter == s.casCounter
    requires OthersKept(s, s', None)
    requires forall k :: Erases(e, k) ==> k !in s'.data
    ensures Mirrors(c, s', h + [e])
  {
    var h' := h + [e];
    assert h'[..|h|] == h && h'[|h|] == e;
    forall k | k in s'.data
      ensures LastWrite(c, h', k) == Some(s'.data[k])
    {
      assert k in s.data && !Erases(e, k);
    }
  }

  lemma MirrorsWrite(c: Config, s: State, s': State, h: seq<Event>, e: Event)
    requires Mirrors(c, s, h)
    requires e.result.Stored? && !e.op.GetMulti? && !e.op.FlushAll? && !e.op.Delete?
    requires s'.casCounter == s.casCounter + 1
    requires OthersKept(s, s', Some(e.op.key))
    requires e.op.key in s'.data && LastWrite(c, h + [e], e.op.key) == Some(s'.data[e.op.key])
    ensures Mirrors(c, s', h + [e])
  {
    var h' := h + [e];
    assert h'[..|h|] == h && h'[|h|] == e;
    forall k | k in s'.data
      ensures LastWrite(c, h', k) == Some(s'.data[k])
    {
      assert k != e.op.key ==> k in s.data && !Writes(e, k);
    }
  }

  /** A stored set, add or replace. */
  lemma MirrorsSet(c: Config, s: State, h: seq<Event>, e: Event)
    requires Mirrors(c, s, h) && s.casCounter + 1 < U64
    requires (e.op.Set? || e.op.Add? || e.op.Replace?) && e.result.Stored?
    ensures Mirrors(c, ExecSet(c, s, e.op.key, e.op.value, e.op.flags, e.op.ttl, e.now, e.evicted).0, h + [e])
  {
    assert (h + [e])[..|h|] == h;
    RemoveAllEffect(c, TakeToken(s), e.evicted);
    MirrorsWrite(c, s, ExecSet(c, s, e.op.key, e.op.value, e.op.flags, e.op.ttl, e.now, e.evicted).0, h, e);
  }

  lemma MirrorsCas(c: Config, s: State, h: seq<Event>, e: Event)
    requires Mirrors(c, s, h) && s.casCounter + 1 < U64
    requires e.op.Cas? && e.result == ExecCas(c, s, e.op, e.now, e.evicted).1
    ensures Mirrors(c, ExecCas(c, s, e.op, e.now, e.evicted).0, h + [e])
  {
    var s' := ExecCas(c, s, e.op, e.now, e.evicted).0;
    if e.result.Stored? {
      assert (h + [e])[..|h|] == h;
      RemoveAllEffect(c, Uncharge(c, TakeToken(s), e.op.key), e.evicted);
      MirrorsWrite(c, s, s', h, e);
    } else {
      MirrorsKeep(c, s, s', h, e);
    }
  }

  lemma MirrorsExtend(c: Config, s: State, h: seq<Event>, e: Event)
    requires Mirrors(c, s, h) && s.casCounter + 1 < U64
    requires (e.op.Append? || e.op.Prepend?) && e.result == ExecExtend(c, s, e.op, e.now, e.evicted).1
    ensures Mirrors(c, ExecExtend(c, s, e.op, e.now, e.evicted).0, h + [e])
  {
    var s' := ExecExtend(c, s, e.op, e.now, e.evicted).0;
    if e.result.Stored? {
      MirrorsExtended(c, s, h, e);
    } else {
      hide LastWrite;
      RemoveAllEffect(c, s, e.evicted);
      MirrorsKeep(c, s, s', h, e);
    }
  }

  lemma LastWriteExtended(c: Config, h: seq<Event>, e: Event)
    requires (e.op.Append? || e.op.Prepend?) && e.result.Stored? && LastWrite(c, h, e.op.key).Some?
    ensures var was := LastWrite(c, h, e.op.key).value;
            LastWrite(c, h + [e], e.op.key)
            == Some(was.(value := Extended(e.op, was.value), casUnique := 1 + StoredCount(h)))
  {
    hide StoredCount;
    assert (h + [e])[..|h|] == h;
    var was := LastWrite(c, h, e.op.key).value.value;
    assert [] + was + e.op.value == was + e.op.value && e.op.value + was + [] == e.op.value + was;
  }

  lemma MirrorsExtended(c: Config, s: State, h: seq<Event>, e: Event)
    requires Mirrors(c, s, h) && s.casCounter + 1 < U64
    requires (e.op.Append? || e.op.Prepend?) && Live(s, e.op.key, e.now)
    requires Stored == e.result == ExecExtend(c, s, e.op, e.now, e.evicted).1
    ensures Mirrors(c, ExecExtend(c, s, e.op, e.now, e.evicted).0, h + [e])
  {
    hide RemoveAll, LastWrite, StoredCount;
    RemoveAllEffect(c, s, e.evicted);
    LastWriteExtended(c, h, e);
    MirrorsWrite(c, s, ExecExtend(c, s, e.op, e.now, e.evicted).0, h, e);
  }

  lemma MirrorsGetMulti(c: Config, s: State, h: seq<Event>, e: Event)
    requires Mirrors(c, s, h)
    requires e.op.GetMulti? && !e.result.Stored?
    ensures Mirrors(c, Exec(c, s, e.op, e.now, e.evicted).0, h + [e])
  {
    var touched := TouchAll(s, KeysOf(Hits(s.data, e.op.keys, e.now)));
    TouchAllEffect(s, KeysOf(Hits(s.data, e.op.keys, e.now)));
    RemoveAllEffect(c, touched, ExpiredKeys(s.data, e.op.keys, e.now));
    MirrorsKeep(c, s, Exec(c, s, e.op, e.now, e.evicted).0, h, e);
  }

  lemma MirrorsStep(c: Config, s: State, h: seq<Event>, e: Event)
    requires Mirrors(c, s, h) && s.casCounter + 1 < U64
    requires ValidStep(c, s, e)
    ensures Mirrors(c, Exec(c, s, e.op, e.now, e.evicted).0, h + [e])
  {
    match e.op
    case GetMulti(_) => MirrorsGetMulti(c, s, h, e);
    case Cas(_, _, _, _, _) => MirrorsCas(c, s, h, e);
    case Append(_, _) => MirrorsExtend(c, s, h, e);
    case Prepend(_, _) => MirrorsExtend(c, s, h, e);
    case _ =>
      if e.result.Stored? {
        MirrorsSet(c, s, h, e);
      } else {
        MirrorsKeep(c, s, Exec(c, s, e.op, e.now, e.evicted).0, h, e);
      }
  }

  lemma {:induction false} RunMirrors(c: Config, h: seq<Event>)
    requires ValidRun(c, h) && NoWrap(h)
    ensures Mirrors(c, StateAfter(c, h), h)
    decreases |h|
  {
    if h != [] {
      var before := h[..|h| - 1];
      RunMirrors(c, before);
      assert before + [h[|h| - 1]] == h;
      StoredAtMostWeight(before);
      MirrorsStep(c, StateAfter(c, before), before, h[|h| - 1]);
    }
  }

  lemma {:induction false} PrefixNoWrap(h: seq<Event>, i: nat)
    requires NoWrap(h)
    requires i <= |h|
    ensures NoWrap(h[..i])
    decreases |h|
  {
    if i < |h| {
      PrefixNoWrap(h[..|h| - 1], i);
      assert h[..|h| - 1][..i] == h[..i];
    } else {
      assert h[..i] == h;
    }
  }

  /** The call answered with `item` for key `k`. */
  predicate Returned(e: Event, k: Key, item: Item) {
    || (e.op.Get? && e.op.key == k && e.result == Hit(item))
    || (e.op.GetMulti? && e.result.Items? && (k, item) in e.result.items)
  }

  lemma {:induction false} HitsAreLive(data: map<Key, Item>, keys: seq<Key>, now: nat)
    ensures forall p :: p in Hits(data, keys, now) ==>
              p.0 in keys && p.0 in data && data[p.0] == p.1 && !Expired(p.1, now)
    decreases |keys|
  {
    if keys != [] {
      HitsAreLive(data, keys[1..], now);
    }
  }

  /** A lookup of one key finds its item if that is live. */
  lemma HitsOne(data: map<Key, Item>, k: Key, now: nat)
    ensures Hits(data, [k], now) == if k in data && !Expired(data[k], now) then [(k, data[k])] else []
  {
    assert [k][1..] == [];
    assert Hits(data, [], now) == [];
  }

  /** And a lookup of several keys is the lookups of the parts, one after the other. */
  lemma {:induction false} HitsAppend(data: map<Key, Item>, keys: seq<Key>, more: seq<Key>, now: nat)
    ensures Hits(data, keys + more, now) == Hits(data, keys, now) + Hits(data, more, now)
    decreases |keys|
  {
    if keys == [] {
      assert keys + more == more;
    } else {
      assert (keys + more)[1..] == keys[1..] + more;
      HitsAppend(data, keys[1..], more, now);
    }
  }

  lemma ReturnedIsHeld(c: Config, h: seq<Event>, i: nat, k: Key, item: Item)
    requires ValidRun(c, h)
    requires i < |h| && Returned(h[i], k, item)
    ensures var s := StateAfter(c, h[..i]); k in s.data && s.data[k] == item && !Expired(item, h[i].now)
  {
    PrefixOfRun(c, h, i);
    var s := StateAfter(c, h[..i]);
    if h[i].op.GetMulti? {
      HitsAreLive(s.data, h[i].op.keys, h[i].now);
      assert h[i].result.items == Hits(s.data, h[i].op.keys, h[i].now);
      assert (k, item) in Hits(s.data, h[i].op.keys, h[i].now);
    }
  }

  /** On every run, with any evictions, expirations and flushes, a hit is exactly the replay of the
      stored operations on its key, flags, expiry and token included, and it is not expired. */
  lemma NoStaleHits(c: Config, h: seq<Event>, i: nat, k: Key, item: Item)
    requires ValidRun(c, h) && NoWrap(h)
    requires i < |h| && Returned(h[i], k, item)
    ensures LastWrite(c, h[..i], k) == Some(item)
    ensures !Expired(item, h[i].now)
  {
    ReturnedIsHeld(c, h, i, k, item);
    PrefixOfRun(c, h, i);
    PrefixNoWrap(h, i);
    RunMirrors(c, h[..i]);
  }

  // ---------------------------------------------------------------- CAS tokens

  lemma {:induction false} TokenRange(c: Config, h: seq<Event>, k: Key)
    requires LastWrite(c, h, k).Some?
    ensures 1 <= LastWrite(c, h, k).value.casUnique <= StoredCount(h)
    decreases |h|
  {
    var before := h[..|h| - 1];
    if !Writes(h[|h| - 1], k) {
      TokenRange(c, before, k);
    }
  }

  lemma {:induction false} TokensDistinct(c: Config, h: seq<Event>, k: Key, k': Key)
    requires k != k'
    requires LastWrite(c, h, k).Some? && LastWrite(c, h, k').Some?
    ensures LastWrite(c, h, k).value.casUnique != LastWrite(c, h, k').value.casUnique
    decreases |h|
  {
    var e, before := h[|h| - 1], h[..|h| - 1];
    if Writes(e, k) {
      TokenRange(c, before, k');
    } else if Writes(e, k') {
      TokenRange(c, before, k);
    } else {
      TokensDistinct(c, before, k, k');
    }
  }

  lemma {:induction false} StoredCountMonotone(h: seq<Event>, i: nat, j: nat)
    requires i <= j <= |h|
    ensures StoredCount(h[..i]) <= StoredCount(h[..j])
    decreases j - i
  {
    if i < j {
      StoredCountMonotone(h, i, j - 1);
      assert h[..j][..j - 1] == h[..j - 1];
    }
  }

  /** After key `k` is written or erased at position `m`, whatever it holds later has a newer token. */
  lemma {:induction false} TokenIsNewer(c: Config, h: seq<Event>, k: Key, m: nat, j: nat)
    requires m < j <= |h|
    requires Writes(h[m], k) || Erases(h[m], k)
    requires LastWrite(c, h[..j], k).Some?
    ensures LastWrite(c, h[..j], k).value.casUnique > StoredCount(h[..m])
    decreases j
  {
    assert h[..j][..j - 1] == h[..j - 1];
    StoredCountMonotone(h, m, j - 1);
    if !Writes(h[j - 1], k) && j - 1 > m {
      TokenIsNewer(c, h, k, m, j - 1);
    }
  }

  /** Live tokens are at least 1, below the counter and pairwise distinct. */
  lemma LiveTokens(c: Config, h: seq<Event>)
    requires ValidRun(c, h) && NoWrap(h)
    ensures var s := StateAfter(c, h);
            && (forall k :: k in s.data ==> 1 <= s.data[k].casUnique < s.casCounter)
            && (forall k, k' :: k in s.data && k' in s.data && k != k' ==> s.data[k].casUnique != s.data[k'].casUnique)
  {
    RunMirrors(c, h);
    var s := StateAfter(c, h);
    forall k | k in s.data
      ensures 1 <= s.data[k].casUnique < s.casCounter
    {
      TokenRange(c, h, k);
    }
    forall k, k' | k in s.data && k' in s.data && k != k'
      ensures s.data[k].casUnique != s.data[k'].casUnique
    {
      TokensDistinct(c, h, k, k');
    }
  }

  /** CAS has no ABA problem: when a cas with the token of an earlier hit is stored, the key was
      neither written nor deleted nor flushed in between, and it still holds the item that was read. */
  lemma CasFreeOfAba(c: Config, h: seq<Event>, i: nat, j: nat, k: Key, item: Item)
    requires ValidRun(c, h) && NoWrap(h)
    requires i < j < |h|
    requires Returned(h[i], k, item)
    requires h[j].op.Cas? && h[j].op.key == k && h[j].op.token == item.casUnique && h[j].result.Stored?
    ensures forall m :: i < m < j ==> !Writes(h[m], k) && !Erases(h[m], k)
    ensures StateAfter(c, h[..j]).data.Keys >= {k} && StateAfter(c, h[..j]).data[k] == item
  {
    PrefixOfRun(c, h, j);
    PrefixNoWrap(h, j);
    RunMirrors(c, h[..j]);
    NoStaleHits(c, h, i, k, item);
    TokenRange(c, h[..i], k);
    forall m | i <= m < j
      ensures !Writes(h[m], k) && !Erases(h[m], k)
    {
      if Writes(h[m], k) || Erases(h[m], k) {
        TokenIsNewer(c, h, k, m, j);
        StoredCountMonotone(h, i, m);
        assert false;
      }
    }
    UnwrittenUnchanged(c, h, k, i, j);
  }

  lemma {:induction false} UnwrittenUnchanged(c: Config, h: seq<Event>, k: Key, i: nat, j: nat)
    requires i <= j <= |h|
    requires forall m :: i <= m < j ==> !Writes(h[m], k) && !Erases(h[m], k)
    ensures LastWrite(c, h[..j], k) == LastWrite(c, h[..i], k)
    decreases j
  {
    if i < j {
      assert h[..j][..j - 1] == h[..j - 1];
      UnwrittenUnchanged(c, h, k, i, j - 1);
    }
  }

  /** A cas whose token text did not parse carries token 0 and is never stored. */
  lemma CasZeroNeverStored(c: Config, h: seq<Event>, j: nat)
    requires ValidRun(c, h) && NoWrap(h)
    requires j < |h| && h[j].op.Cas? && h[j].op.token == 0
    ensures !h[j].result.Stored?
  {
    PrefixOfRun(c, h, j);
    PrefixNoWrap(h, j);
    RunMirrors(c, h[..j]);
    if h[j].result.Stored? {
      assert LastWrite(c, h[..j], h[j].op.key).value.casUnique == 0;
      TokenRange(c, h[..j], h[j].op.key);
    }
  }

  /** A set whose expiry time is past the clock's range panics and changes nothing; any other is stored, and a hit
      with exactly that value and flags until its time is up, and never after. */
  lemma SetThenGet(c: Config, s: State, k: Key, v: Bytes, f: nat, ttl: nat, now: nat, evicted: seq<Key>, later: nat)
    ensures var (s', answer) := Exec(c, s, Set(k, v, f, ttl), now, evicted);
            var r := Exec(c, s', Get(k), later, []).1;
            var life := if ttl > 0 then ttl else c.defaultTtl;
            if life > 0 && now + life > c.clockMax then answer == Panicked && s' == s
            else
              && answer == Stored
              && (if life == 0 || later < now + life then
                    r.Hit? && r.item.value == v && r.item.flags == f && r.item.casUnique == s.casCounter
                  else r == Miss)
  {
    RemoveAllEffect(c, TakeToken(s), evicted);
    hide RemoveAll;
  }

  /** A call panics exactly when it reaches its store with an expiry time past the clock's range; nothing has
      changed then. */
  lemma PanicsIff(c: Config, s: State, e: Event)
    requires Happens(c, s, e)
    ensures e.result.Panicked? <==>
              match e.op
              case Set(_, _, _, ttl) => !Representable(c, ttl, e.now)
              case Add(k, _, _, ttl) => !Live(s, k, e.now) && !Representable(c, ttl, e.now)
              case Replace(k, _, _, ttl) => Live(s, k, e.now) && !Representable(c, ttl, e.now)
              case Cas(k, _, _, ttl, token) =>
                Live(s, k, e.now) && s.data[k].casUnique == token && !Representable(c, ttl, e.now)
              case _ => false
    ensures e.result.Panicked? ==> Exec(c, s, e.op, e.now, e.evicted).0 == s && e.evicted == []
  {
    hide RemoveAll, Evicts;
  }
}
