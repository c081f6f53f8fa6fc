/** The access-sequence map refines a plain recency list; eviction follows that list. */
module StorageLru {
  import opened Base
  import opened StorageSpec
  import opened StorageHistory

  // ---------------------------------------------------------------- the plain list

  function Without(l: seq<Key>, k: Key): (r: seq<Key>)
    ensures forall j :: j in r <==> j in l && j != k
  {
    if l == [] then []
    else if l[0] == k then Without(l[1..], k)
    else [l[0]] + Without(l[1..], k)
  }

  function WithoutAll(l: seq<Key>, ks: seq<Key>): seq<Key>
    decreases |ks|
  {
    if ks == [] then l else WithoutAll(Without(l, ks[0]), ks[1..])
  }

  function MoveToEnd(l: seq<Key>, k: Key): seq<Key> {
    Without(l, k) + [k]
  }

  function MoveAllToEnd(l: seq<Key>, ks: seq<Key>): seq<Key>
    decreases |ks|
  {
    if ks == [] then l else MoveAllToEnd(MoveToEnd(l, ks[0]), ks[1..])
  }

  function Minus(keys: seq<Key>, ks: seq<Key>): seq<Key> {
    if keys == [] then []
    else if keys[0] in ks then Minus(keys[1..], ks)
    else [keys[0]] + Minus(keys[1..], ks)
  }

  /** Least recently used first; computed from calls, answers and evictions alone. */
  function RecencyStep(l: seq<Key>, e: Event): seq<Key> {
    match e.op
    case Get(k) => if e.result.Hit? then MoveToEnd(l, k) else Without(l, k)
    case GetMulti(keys) =>
      if e.result.Items? then
        var hit := KeysOf(e.result.items);
        WithoutAll(MoveAllToEnd(l, hit), Minus(keys, hit))
      else l
    case FlushAll => []
    case Delete(k) => Without(l, k)
    case Set(k, _, _, _) => MoveToEnd(WithoutAll(l, e.evicted), k)
    case Add(k, _, _, _) => if e.result.Stored? then MoveToEnd(WithoutAll(l, e.evicted), k) else l
    case Replace(k, _, _, _) => if e.result.Stored? then MoveToEnd(WithoutAll(l, e.evicted), k) else l
    case Cas(k, _, _, _, _) =>
      if e.result.Stored? then MoveToEnd(WithoutAll(l, e.evicted), k)
      else if e.result.NotFound? then Without(l, k)
      else l
    case Append(k, _) =>
      if e.result.Stored? then MoveToEnd(WithoutAll(l, e.evicted), k) else Without(WithoutAll(l, e.evicted), k)
    case Prepend(k, _) =>
      if e.result.Stored? then MoveToEnd(WithoutAll(l, e.evicted), k) else Without(WithoutAll(l, e.evicted), k)
  }

  function Recency(h: seq<Event>): seq<Key>
    decreases |h|
  {
    if h == [] then [] else RecencyStep(Recency(h[..|h| - 1]), h[|h| - 1])
  }

  // ---------------------------------------------------------------- agreement

  predicate Ascending(l: seq<Key>, order: map<Key, int>) {
    && (forall i :: 0 <= i < |l| ==> l[i] in order)
    && (forall i, j :: 0 <= i < j < |l| ==> order[l[i]] < order[l[j]])
  }

  /** `l` lists exactly the keys held, in the order of their access sequence numbers. */
  ghost predicate Agrees(s: State, l: seq<Key>) {
    && (forall k :: k in l <==> k in s.data)
    && Ascending(l, s.order)
    && (forall k :: k in l ==> s.order[k] < s.accessCounter)
  }

  lemma {:induction false} AscendingWithout(l: seq<Key>, k: Key, order: map<Key, int>)
    requires Ascending(l, order)
    ensures Ascending(Without(l, k), order)
    decreases |l|
  {
    if l != [] {
      AscendingWithout(l[1..], k, order);
      var w := Without(l[1..], k);
      forall i | 0 <= i < |w|
        ensures order[l[0]] < order[w[i]]
      {
        assert w[i] in l[1..];
      }
    }
  }

  /** Equal entries for the listed keys are enough. */
  lemma AscendingTransfer(l: seq<Key>, order: map<Key, int>, order': map<Key, int>)
    requires Ascending(l, order)
    requires forall k :: k in l ==> k in order' && order'[k] == order[k]
    ensures Ascending(l, order')
  {
    forall i | 0 <= i < |l|
      ensures l[i] in order' && order'[l[i]] == order[l[i]]
    {
      assert l[i] in l;
    }
  }

  lemma AgreesRemove(c: Config, s: State, l: seq<Key>, k: Key)
    requires Agrees(s, l)
    ensures Agrees(Remove(c, s, k), Without(l, k))
  {
    AscendingWithout(l, k, s.order);
    AscendingTransfer(Without(l, k), s.order, Remove(c, s, k).order);
  }

  lemma AgreesDiscard(c: Config, s: State, l: seq<Key>, k: Key)
    requires Agrees(s, l) && k in s.data
    ensures Agrees(Discard(c, s, k), Without(l, k))
  {
    AscendingWithout(l, k, s.order);
  }

  lemma {:induction false} AgreesRemoveAll(c: Config, s: State, l: seq<Key>, ks: seq<Key>)
    requires Agrees(s, l)
    ensures Agrees(RemoveAll(c, s, ks), WithoutAll(l, ks))
    decreases |ks|
  {
    if ks != [] {
      AgreesRemove(c, s, l, ks[0]);
      AgreesRemoveAll(c, Remove(c, s, ks[0]), Without(l, ks[0]), ks[1..]);
    }
  }

  /** Recording an access moves the key to the end. */
  lemma AgreesTouch(s: State, s': State, l: seq<Key>, k: Key)
    requires Agrees(s, l) && 0 <= s.accessCounter < U64 - 1
    requires s'.data.Keys == s.data.Keys + {k}
    requires s'.order == s.order[k := s.accessCounter] && s'.accessCounter == s.accessCounter + 1
    ensures Agrees(s', MoveToEnd(l, k))
  {
    var w := Without(l, k);
    AscendingWithout(l, k, s.order);
    AscendingTransfer(w, s.order, s'.order);
    forall i | 0 <= i < |w|
      ensures s'.order[w[i]] < s'.order[k]
    {
      assert w[i] in l;
    }
  }

  lemma {:induction false} AgreesTouchAll(s: State, l: seq<Key>, ks: seq<Key>)
    requires Agrees(s, l) && 0 <= s.accessCounter && s.accessCounter + |ks| < U64 - 1
    requires forall k :: k in ks ==> k in s.data
    ensures Agrees(TouchAll(s, ks), MoveAllToEnd(l, ks))
    ensures TouchAll(s, ks).accessCounter == s.accessCounter + |ks|
    decreases |ks|
  {
    if ks != [] {
      AgreesTouch(s, Touch(s, ks[0]), l, ks[0]);
      AgreesTouchAll(Touch(s, ks[0]), MoveToEnd(l, ks[0]), ks[1..]);
    }
  }

  /** Changing anything but the key set and the order leaves the agreement alone. */
  lemma AgreesSame(s: State, s': State, l: seq<Key>)
    requires Agrees(s, l)
    requires s'.data.Keys == s.data.Keys && s'.order == s.order && s'.accessCounter == s.accessCounter
    ensures Agrees(s', l)
  {
    forall k
      ensures k in l <==> k in s'.data
    {
      assert k in s'.data <==> k in s'.data.Keys;
    }
  }

  // ---------------------------------------------------------------- every operation keeps it

  lemma AgreesInsert(c: Config, s: State, l: seq<Key>, k: Key, item: Item)
    requires Agrees(s, l) && 0 <= s.accessCounter < U64 - 1
    ensures Agrees(Insert(c, s, k, item), MoveToEnd(l, k))
    ensures Insert(c, s, k, item).accessCounter == s.accessCounter + 1
  {
    hide Agrees;
    AgreesTouch(s, Insert(c, s, k, item), l, k);
  }

  /** Evict from a state with the same keys and order, then insert. */
  lemma AgreesStore(c: Config, s: State, s0: State, l: seq<Key>, ks: seq<Key>, k: Key, item: Item)
    requires Agrees(s, l) && 0 <= s.accessCounter < U64 - 1
    requires s0.data == s.data && s0.order == s.order && s0.accessCounter == s.accessCounter
    ensures Agrees(Insert(c, RemoveAll(c, s0, ks), k, item), MoveToEnd(WithoutAll(l, ks), k))
    ensures Insert(c, RemoveAll(c, s0, ks), k, item).accessCounter == s.accessCounter + 1
  {
    hide Agrees;
    AgreesSame(s, s0, l);
    AgreesRemoveAll(c, s0, l, ks);
    RemoveAllEffect(c, s0, ks);
    AgreesInsert(c, RemoveAll(c, s0, ks), WithoutAll(l, ks), k, item);
  }

  lemma AgreesSet(c: Config, s: State, l: seq<Key>, ks: seq<Key>, k: Key, item: Item)
    requires Agrees(s, l) && 0 <= s.accessCounter < U64 - 1
    ensures var s1 := RemoveAll(c, TakeToken(s), ks);
            && Agrees(Insert(c, Uncharge(c, s1, k), k, item), MoveToEnd(WithoutAll(l, ks), k))
            && Insert(c, Uncharge(c, s1, k), k, item).accessCounter == s.accessCounter + 1
  {
    hide Agrees;
    var s1 := RemoveAll(c, TakeToken(s), ks);
    AgreesStore(c, s, TakeToken(s), l, ks, k, item);
    RemoveAllEffect(c, TakeToken(s), ks);
    AgreesSame(Insert(c, s1, k, item), Insert(c, Uncharge(c, s1, k), k, item), MoveToEnd(WithoutAll(l, ks), k));
  }

  lemma NothingEvicted(c: Config, s: State, l: seq<Key>)
    ensures RemoveAll(c, s, []) == s && WithoutAll(l, []) == l
  {
  }

  lemma AgreesExtend(c: Config, s: State, l: seq<Key>, e: Event)
    requires Agrees(s, l) && 0 <= s.accessCounter < U64 - 1
    requires (e.op.Append? || e.op.Prepend?) && ValidStep(c, s, e)
    ensures var s' := Exec(c, s, e.op, e.now, e.evicted).0;
            Agrees(s', RecencyStep(l, e)) && s.accessCounter <= s'.accessCounter <= s.accessCounter + 1
  {
    hide Agrees, RemoveAll, Without, WithoutAll;
    var k, s1 := e.op.key, RemoveAll(c, s, e.evicted);
    AgreesRemoveAll(c, s, l, e.evicted);
    RemoveAllEffect(c, s, e.evicted);
    var l1 := WithoutAll(l, e.evicted);
    if e.result.Stored? {
      AgreesTouch(s1, Exec(c, s, e.op, e.now, e.evicted).0, l1, k);
    } else if k !in s.data {
      NothingEvicted(c, s, l);
      AgreesRemove(c, s, l, k);
    } else if Expired(s.data[k], e.now) {
      NothingEvicted(c, s, l);
      AgreesDiscard(c, s, l, k);
    } else {
      AgreesRemove(c, s1, l1, k);
    }
  }

  lemma {:induction false} HitAndExpiredKeys(data: map<Key, Item>, keys: seq<Key>, now: nat)
    ensures forall k :: k in KeysOf(Hits(data, keys, now)) <==> k in keys && k in data && !Expired(data[k], now)
    ensures forall k :: k in ExpiredKeys(data, keys, now) <==> k in keys && k in data && Expired(data[k], now)
    ensures |KeysOf(Hits(data, keys, now))| <= |keys|
    decreases |keys|
  {
    if keys != [] {
      HitAndExpiredKeys(data, keys[1..], now);
      if keys[0] in data && !Expired(data[keys[0]], now) {
        assert Hits(data, keys, now)[1..] == Hits(data, keys[1..], now);
      }
    }
  }

  /** A lookup takes away exactly the expired ones among the keys it is asked for, and changes no item. */
  lemma LookupEffect(c: Config, s: State, keys: seq<Key>, now: nat)
    ensures var (s', r) := Exec(c, s, GetMulti(keys), now, []);
            && r.Items?
            && (forall k :: k in s'.data <==> k in s.data && !(k in keys && Expired(s.data[k], now)))
            && (forall k :: k in s'.data ==> s'.data[k] == s.data[k])
            && s'.casCounter == s.casCounter
  {
    hide RemoveAll, TouchAll, Hits, ExpiredKeys, KeysOf;
    var hit, expired := KeysOf(Hits(s.data, keys, now)), ExpiredKeys(s.data, keys, now);
    HitAndExpiredKeys(s.data, keys, now);
    TouchAllEffect(s, hit);
    RemoveAllEffect(c, TouchAll(s, hit), expired);
  }

  lemma {:induction false} MinusMembers(keys: seq<Key>, ks: seq<Key>)
    ensures forall k :: k in Minus(keys, ks) <==> k in keys && k !in ks
    decreases |keys|
  {
    if keys != [] {
      MinusMembers(keys[1..], ks);
    }
  }

  /** Removing keys that are not held changes nothing, so any list with the same held keys will do. */
  lemma {:induction false} AgreesRemoveMissed(c: Config, s: State, l: seq<Key>, expired: seq<Key>, missed: seq<Key>)
    requires Agrees(s, l)
    requires forall k :: k in s.data && k in missed ==> k in expired
    requires forall k :: k in expired ==> k in missed
    ensures Agrees(RemoveAll(c, s, expired), WithoutAll(l, missed))
  {
    AgreesRemoveAll(c, s, l, missed);
    RemoveAllEffect(c, s, missed);
    RemoveAllEffect(c, s, expired);
    var a, b := RemoveAll(c, s, missed), RemoveAll(c, s, expired);
    var l' := WithoutAll(l, missed);
    forall k | k in l'
      ensures k in b.data && k in b.order && b.order[k] == a.order[k]
    {
      assert k in a.data && k in s.data;
    }
    AscendingTransfer(l', a.order, b.order);
  }

  lemma AgreesGetMulti(c: Config, s: State, l: seq<Key>, e: Event)
    requires e.op.GetMulti? && ValidStep(c, s, e)
    requires Agrees(s, l) && 0 <= s.accessCounter && s.accessCounter + |e.op.keys| < U64 - 1
    ensures var s' := Exec(c, s, e.op, e.now, e.evicted).0;
            Agrees(s', RecencyStep(l, e)) && s.accessCounter <= s'.accessCounter <= s.accessCounter + |e.op.keys|
  {
    hide Agrees;
    var keys, now := e.op.keys, e.now;
    var hit, expired := KeysOf(Hits(s.data, keys, now)), ExpiredKeys(s.data, keys, now);
    HitAndExpiredKeys(s.data, keys, now);
    AgreesTouchAll(s, l, hit);
    TouchAllEffect(s, hit);
    MinusMembers(keys, hit);
    AgreesRemoveMissed(c, TouchAll(s, hit), MoveAllToEnd(l, hit), expired, Minus(keys, hit));
    RemoveAllEffect(c, TouchAll(s, hit), expired);
  }

  lemma AgreesStep(c: Config, s: State, l: seq<Key>, e: Event)
    requires ValidStep(c, s, e)
    requires Agrees(s, l) && 0 <= s.accessCounter && s.accessCounter + Weight(e.op) < U64
    ensures var s' := Exec(c, s, e.op, e.now, e.evicted).0;
            Agrees(s', RecencyStep(l, e)) && s.accessCounter <= s'.accessCounter <= s.accessCounter + Weight(e.op)
  {
    hide Agrees;
    var s' := Exec(c, s, e.op, e.now, e.evicted).0;
    match e.op
    case Get(k) =>
      if e.result.Hit? {
        AgreesTouch(s, s', l, k);
      } else {
        AgreesRemove(c, s, l, k);
      }
    case GetMulti(_) => AgreesGetMulti(c, s, l, e);
    case Delete(k) => AgreesRemove(c, s, l, k);
    case FlushAll => AgreesEmpty(s');
    case Cas(k, _, _, _, _) => AgreesCas(c, s, l, e);
    case Append(_, _) => AgreesExtend(c, s, l, e);
    case Prepend(_, _) => AgreesExtend(c, s, l, e);
    case Set(k, v, f, ttl) => AgreesSet(c, s, l, e.evicted, k, NewItem(c, s, v, f, ttl, e.now));
    case Add(k, v, f, ttl) => AgreesSet(c, s, l, e.evicted, k, NewItem(c, s, v, f, ttl, e.now));
    case Replace(k, v, f, ttl) => AgreesSet(c, s, l, e.evicted, k, NewItem(c, s, v, f, ttl, e.now));
  }

  lemma AgreesEmpty(s: State)
    requires s.data == map[]
    ensures Agrees(s, [])
  {
  }

  lemma AgreesCas(c: Config, s: State, l: seq<Key>, e: Event)
    requires e.op.Cas? && ValidStep(c, s, e)
    requires Agrees(s, l) && 0 <= s.accessCounter < U64 - 1
    ensures var s' := Exec(c, s, e.op, e.now, e.evicted).0;
            Agrees(s', RecencyStep(l, e)) && s.accessCounter <= s'.accessCounter <= s.accessCounter + 1
  {
    hide Agrees;
    var k := e.op.key;
    if k !in s.data {
      AgreesRemove(c, s, l, k);
    } else if Expired(s.data[k], e.now) {
      AgreesDiscard(c, s, l, k);
    } else if e.result.Stored? {
      AgreesStore(c, s, Uncharge(c, TakeToken(s), k), l, e.evicted, k,
                  NewItem(c, s, e.op.value, e.op.flags, e.op.ttl, e.now));
    }
  }

  /** On every run the sequence-number map and the plain recency list agree. */
  lemma {:induction false} LruAgreesOnRuns(c: Config, h: seq<Event>)
    requires ValidRun(c, h) && NoWrap(h)
    ensures Agrees(StateAfter(c, h), Recency(h))
    ensures 0 <= StateAfter(c, h).accessCounter <= TotalWeight(h)
    decreases |h|
  {
    if h != [] {
      var before := h[..|h| - 1];
      LruAgreesOnRuns(c, before);
      AgreesStep(c, StateAfter(c, before), Recency(before), h[|h| - 1]);
    }
  }

  // ---------------------------------------------------------------- eviction order

  function LiveOf(l: seq<Key>, s: State, now: nat): (r: seq<Key>)
    ensures forall k :: k in r <==> k in l && Live(s, k, now)
  {
    if l == [] then []
    else if Live(s, l[0], now) then [l[0]] + LiveOf(l[1..], s, now)
    else LiveOf(l[1..], s, now)
  }

  lemma {:induction false} LiveOfAscending(l: seq<Key>, s: State, now: nat)
    requires Ascending(l, s.order)
    ensures Ascending(LiveOf(l, s, now), s.order)
    decreases |l|
  {
    if l != [] {
      LiveOfAscending(l[1..], s, now);
      var r := LiveOf(l[1..], s, now);
      forall i | 0 <= i < |r|
        ensures s.order[l[0]] < s.order[r[i]]
      {
        assert r[i] in l[1..];
      }
    }
  }

  lemma {:induction false} LiveOfWithout(c: Config, l: seq<Key>, s: State, k: Key, now: nat)
    ensures LiveOf(Without(l, k), Remove(c, s, k), now) == Without(LiveOf(l, s, now), k)
    decreases |l|
  {
    if l != [] {
      LiveOfWithout(c, l[1..], s, k, now);
    }
  }

  lemma {:induction false} WithoutAbsent(l: seq<Key>, k: Key)
    requires k !in l
    ensures Without(l, k) == l
    decreases |l|
  {
    if l != [] {
      WithoutAbsent(l[1..], k);
    }
  }

  lemma WithoutHead(l: seq<Key>, order: map<Key, int>)
    requires l != [] && Ascending(l, order)
    ensures Without(l, l[0]) == l[1..]
  {
    forall i | 0 <= i < |l[1..]|
      ensures l[1..][i] != l[0]
    {
      assert order[l[0]] < order[l[i + 1]];
    }
    WithoutAbsent(l[1..], l[0]);
  }

  /** The victim is the head of the live recency list; an expired key only when nothing is live. */
  lemma VictimIsHead(s: State, l: seq<Key>, now: nat, k: Key)
    requires Agrees(s, l) && s.accessCounter < U64
    requires Victim(s, k, now)
    ensures LiveOf(l, s, now) != [] ==> k == LiveOf(l, s, now)[0]
    ensures LiveOf(l, s, now) == [] ==> k in s.data && Expired(s.data[k], now)
  {
    var live := LiveOf(l, s, now);
    if live != [] {
      LiveOfAscending(l, s, now);
      assert live[0] in live && Candidate(s, live[0], now);
      assert k in live;
      var i :| 0 <= i < |live| && live[i] == k;
      assert i > 0 ==> s.order[live[0]] < s.order[live[i]];
    } else {
      assert k in l && k !in live;
    }
  }

  /** `ks` is the shortest prefix of `live` that makes room; when even all of `live` does not,
      expired keys follow until there is room or nothing is left. */
  ghost predicate ShortestPrefix(c: Config, s: State, live: seq<Key>, need: nat, now: nat, ks: seq<Key>) {
    && (|ks| <= |live| ==> ks == live[..|ks|])
    && (|ks| > |live| ==> ks[..|live|] == live)
    && (forall i :: |live| <= i < |ks| ==> ks[i] in s.data && Expired(s.data[ks[i]], now))
    && (forall n :: 0 <= n < |ks| ==> TooFull(c, RemoveAll(c, s, ks[..n]), need))
    && (!TooFull(c, RemoveAll(c, s, ks), need) || RemoveAll(c, s, ks).data == map[])
  }

  /** With the clock fixed, one eviction loop removes exactly the shortest prefix of the unexpired keys,
      least recently used first, that makes room; expired keys go only after every unexpired one. */
  lemma {:induction false} EvictionOrder(c: Config, s: State, l: seq<Key>, need: nat, now: nat, ks: seq<Key>)
    requires Agrees(s, l) && s.accessCounter < U64
    requires Evicts(c, s, need, now, ks)
    ensures ShortestPrefix(c, s, LiveOf(l, s, now), need, now, ks)
    decreases |ks|
  {
    if ks == [] {
      assert LiveOf(l, s, now)[..0] == [];
    } else {
      hide Agrees, ShortestPrefix;
      var k, s', l' := ks[0], Remove(c, s, ks[0]), Without(l, ks[0]);
      AgreesRemove(c, s, l, k);
      EvictionOrder(c, s', l', need, now, ks[1..]);
      EvictionHead(c, s, l, now, k);
      PrefixStep(c, s, LiveOf(l, s, now), LiveOf(l', s', now), need, now, ks);
    }
  }

  lemma PrefixStep(c: Config, s: State, live: seq<Key>, live': seq<Key>, need: nat, now: nat, ks: seq<Key>)
    requires ks != [] && TooFull(c, s, need)
    requires ShortestPrefix(c, Remove(c, s, ks[0]), live', need, now, ks[1..])
    requires if live == [] then live' == [] && ks[0] in s.data && Expired(s.data[ks[0]], now)
             else ks[0] == live[0] && live' == live[1..]
    ensures ShortestPrefix(c, s, live, need, now, ks)
  {
    var tail, s' := ks[1..], Remove(c, s, ks[0]);
    EvictionGlue(live, live', ks[0], ks);
    forall n | 0 <= n < |ks|
      ensures TooFull(c, RemoveAll(c, s, ks[..n]), need)
    {
      if n > 0 {
        assert ks[..n][1..] == tail[..n - 1];
        assert TooFull(c, RemoveAll(c, s', tail[..n - 1]), need);
      }
    }
    forall i | |live| <= i < |ks|
      ensures ks[i] in s.data && Expired(s.data[ks[i]], now)
    {
      if i > 0 {
        assert tail[i - 1] == ks[i] && tail[i - 1] in s'.data;
      }
    }
  }

  lemma EvictionHead(c: Config, s: State, l: seq<Key>, now: nat, k: Key)
    requires Agrees(s, l) && s.accessCounter < U64
    requires Victim(s, k, now)
    ensures var live := LiveOf(l, s, now);
            var live' := LiveOf(Without(l, k), Remove(c, s, k), now);
            if live == [] then live' == [] && k in s.data && Expired(s.data[k], now)
            else k == live[0] && live' == live[1..]
  {
    VictimIsHead(s, l, now, k);
    LiveOfWithout(c, l, s, k, now);
    LiveOfAscending(l, s, now);
    if LiveOf(l, s, now) != [] {
      WithoutHead(LiveOf(l, s, now), s.order);
    }
  }

  lemma EvictionGlue(live: seq<Key>, live': seq<Key>, k: Key, ks: seq<Key>)
    requires ks != [] && ks[0] == k
    requires if live == [] then live' == [] else k == live[0] && live' == live[1..]
    requires |ks[1..]| <= |live'| ==> ks[1..] == live'[..|ks[1..]|]
    requires |ks[1..]| > |live'| ==> ks[1..][..|live'|] == live'
    ensures |ks| <= |live| ==> ks == live[..|ks|]
    ensures |ks| > |live| ==> ks[..|live|] == live
  {
    if live != [] {
      assert live == [k] + live';
      assert ks == [k] + ks[1..];
      if |ks| <= |live| {
        assert live[..|ks|] == [k] + live'[..|ks| - 1];
      } else {
        assert ks[..|live|] == [k] + ks[1..][..|live'|];
      }
    }
  }

  /** The same on runs: what a call evicts is read off the recency list of the calls before it. */
  lemma EvictionFollowsRecency(c: Config, h: seq<Event>, i: nat)
    requires ValidRun(c, h) && NoWrap(h)
    requires i < |h|
    requires EvictionPoint(c, StateAfter(c, h[..i]), h[i].op, h[i].now).Some?
    ensures var s := StateAfter(c, h[..i]);
            var p := EvictionPoint(c, s, h[i].op, h[i].now).value;
            ShortestPrefix(c, p.0, LiveOf(Recency(h[..i]), s, h[i].now), p.1, h[i].now, h[i].evicted)
  {
    hide Agrees, ShortestPrefix;
    PrefixOfRun(c, h, i);
    PrefixNoWrap(h, i);
    LruAgreesOnRuns(c, h[..i]);
    EvictionAt(c, StateAfter(c, h[..i]), Recency(h[..i]), h[i]);
  }

  lemma EvictionAt(c: Config, s: State, l: seq<Key>, e: Event)
    requires Agrees(s, l) && s.accessCounter < U64
    requires ValidStep(c, s, e)
    requires EvictionPoint(c, s, e.op, e.now).Some?
    ensures var p := EvictionPoint(c, s, e.op, e.now).value;
            ShortestPrefix(c, p.0, LiveOf(l, s, e.now), p.1, e.now, e.evicted)
  {
    hide Agrees, ShortestPrefix;
    var p := EvictionPoint(c, s, e.op, e.now).value;
    AgreesSame(s, p.0, l);
    LiveOfSame(l, s, p.0, e.now);
    EvictionOrder(c, p.0, l, p.1, e.now, e.evicted);
  }

  lemma {:induction false} LiveOfSame(l: seq<Key>, s: State, s': State, now: nat)
    requires s.data == s'.data
    ensures LiveOf(l, s, now) == LiveOf(l, s', now)
    decreases |l|
  {
    if l != [] {
      LiveOfSame(l[1..], s, s', now);
    }
  }
}
