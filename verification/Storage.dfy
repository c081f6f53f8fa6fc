/** The storage as the program keeps it: maps and counters updated in place. */
module Storage {
  import opened Base
  import opened StorageSpec
  import opened StorageHistory
  import opened StorageLru
  import opened StorageAccounting
  import opened StorageSelfEviction
  import opened StorageLimit

  class Storage {
    const config: Config
    var data: map<Key, Item>
    var memoryUsed: int
    var order: map<Key, int>
    var casCounter: int
    var accessCounter: int
    /** A cas panicked while it held the data lock. */
    var poisoned: bool
    /** Every call answered so far. */
    ghost var history: seq<Event>

    ghost function View(): State
      reads this
    {
      State(data, memoryUsed, order, casCounter, accessCounter)
    }

    /** The fields are what the answered calls made of an empty storage, and the lock is usable. */
    ghost predicate Valid()
      reads this
    {
      !poisoned && ValidRun(config, history) && View() == StateAfter(config, history)
    }

    constructor (config: Config)
      ensures Valid() && this.config == config
      ensures history == [] && View() == EMPTY
    {
      this.config := config;
      data, memoryUsed, order, casCounter, accessCounter := map[], 0, map[], 1, 0;
      poisoned := false;
      history := [];
    }

    /** Appends a completed call to the history. */
    ghost method Record(e: Event, before: State)
      requires !poisoned && ValidRun(config, history) && before == StateAfter(config, history)
      requires ValidStep(config, before, e)
      requires View() == Exec(config, before, e.op, e.now, e.evicted).0
      modifies this`history
      ensures Valid() && history == old(history) + [e]
    {
      history := history + [e];
      assert history[..|history| - 1] == old(history);
    }

    // -------------------------------------------------------------- internals

    method RecordAccess(k: Key)
      modifies this`order, this`accessCounter
      ensures View() == Touch(old(View()), k)
    {
      var seqno := accessCounter;
      accessCounter := Wrap(accessCounter + 1);
      order := order[k := seqno];
    }

    method NextCasUnique() returns (token: int)
      modifies this`casCounter
      ensures token == old(casCounter) && View() == TakeToken(old(View()))
    {
      token := casCounter;
      casCounter := Wrap(casCounter + 1);
    }

    method RemoveKey(k: Key) returns (removed: bool)
      modifies this`data, this`memoryUsed, this`order
      ensures removed <==> k in old(data)
      ensures View() == Remove(config, old(View()), k)
    {
      removed := k in data;
      if removed {
        var size := Footprint(config, k, data[k]);
        data := data - {k};
        memoryUsed := Wrap(memoryUsed - size);
        order := order - {k};
      }
    }

    /** `find_lru_key`: scan the order map in any sequence, keeping the smallest number seen. */
    method FindLruKey(now: nat) returns (lru: Option<Key>)
      ensures lru.None? <==> data == map[]
      ensures lru.Some? ==> Victim(View(), lru.value, now)
    {
      var minSeq := U64 - 1;
      lru := None;
      var todo := order.Keys;
      while todo != {}
        invariant todo <= order.Keys
        invariant lru.None? ==> minSeq == U64 - 1
        invariant lru.Some? ==> Candidate(View(), lru.value, now) && order[lru.value] == minSeq
        invariant forall j :: j !in todo && Candidate(View(), j, now) ==> lru.Some? && minSeq <= order[j]
        decreases |todo|
      {
        var k :| k in todo;
        todo := todo - {k};
        if k in data && !Expired(data[k], now) && order[k] < minSeq {
          minSeq := order[k];
          lru := Some(k);
        }
      }
      if lru.None? && data != map[] {
        assert data.Keys != {};
        var k :| k in data;
        lru := Some(k);
      }
    }

    /** `ensure_memory_available` */
    method EnsureMemoryAvailable(need: nat, now: nat) returns (ghost evicted: seq<Key>)
      modifies this`data, this`memoryUsed, this`order
      ensures Evicts(config, old(View()), need, now, evicted)
      ensures View() == RemoveAll(config, old(View()), evicted)
    {
      evicted := [];
      ghost var start := View();
      var current := memoryUsed;
      while Wrap(current + need) > config.maxMemory
        invariant current == memoryUsed
        invariant Evicting(config, start, need, now, evicted, View())
        decreases |data|
      {
        ghost var before := View();
        var victim := FindLruKey(now);
        if victim.None? {
          break;
        }
        var _ := RemoveKey(victim.value);
        current := memoryUsed;
        EvictingSnoc(config, start, need, now, evicted, before, victim.value);
        evicted := evicted + [victim.value];
      }
      EvictingDone(config, start, need, now, evicted, View());
    }

    // -------------------------------------------------------------- operations

    method GetItem(k: Key, now: nat) returns (r: Result)
      requires Valid()
      modifies this
      ensures Valid() && history == old(history) + [Event(Get(k), now, [], r)]
      ensures r.Hit? || r.Miss?
      ensures r.Hit? <==> Live(old(View()), k, now)
      ensures r.Hit? ==> r.item == old(data)[k]
      ensures r.Hit? && NoWrap(old(history)) ==> LastWrite(config, old(history), k) == Some(r.item)
    {
      ghost var before := View();
      if NoWrap(history) {
        RunMirrors(config, history);
      }
      if k in data {
        if Expired(data[k], now) {
          var _ := RemoveKey(k);
          r := Miss;
        } else {
          RecordAccess(k);
          r := Hit(data[k]);
        }
      } else {
        r := Miss;
      }
      Record(Event(Get(k), now, [], r), before);
    }

    /** The read-locked loop of `get_multi`. */
    method Scan(keys: seq<Key>, now: nat) returns (results: seq<(Key, Item)>, expired: seq<Key>)
      modifies this`order, this`accessCounter
      ensures results == Hits(data, keys, now) && expired == ExpiredKeys(data, keys, now)
      ensures View() == TouchAll(old(View()), KeysOf(results))
    {
      results, expired := [], [];
      hide Wrap;
      ghost var goal := TouchAll(View(), KeysOf(Hits(data, keys, now)));
      assert keys[0..] == keys;
      for i := 0 to |keys|
        invariant results + Hits(data, keys[i..], now) == Hits(data, keys, now)
        invariant expired + ExpiredKeys(data, keys[i..], now) == ExpiredKeys(data, keys, now)
        invariant TouchAll(View(), KeysOf(Hits(data, keys[i..], now))) == goal
      {
        var k := keys[i];
        ScanStep(data, keys, i, now);
        if k in data {
          if Expired(data[k], now) {
            expired := expired + [k];
          } else {
            RecordAccess(k);
            results := results + [(k, data[k])];
          }
        }
      }
      assert keys[|keys|..] == [] && results + [] == results && expired + [] == expired;
    }

    method RemoveKeys(ks: seq<Key>)
      modifies this`data, this`memoryUsed, this`order
      ensures View() == RemoveAll(config, old(View()), ks)
    {
      ghost var goal := RemoveAll(config, View(), ks);
      assert ks[0..] == ks;
      for i := 0 to |ks|
        invariant RemoveAll(config, View(), ks[i..]) == goal
      {
        assert ks[i..][0] == ks[i] && ks[i..][1..] == ks[i + 1..];
        var _ := RemoveKey(ks[i]);
      }
    }

    method GetItems(keys: seq<Key>, now: nat) returns (r: Result)
      requires Valid()
      modifies this
      ensures Valid() && history == old(history) + [Event(GetMulti(keys), now, [], r)]
      ensures r == Items(Hits(old(data), keys, now))
    {
      ghost var before := View();
      var results, expired := Scan(keys, now);
      RemoveKeys(expired);
      r := Items(results);
      Record(Event(GetMulti(keys), now, [], r), before);
    }

    /** `calculate_expiry`; `ok` is false when the addition panics. */
    method CalculateExpiry(ttl: nat, now: nat) returns (ok: bool, expiresAt: Option<nat>)
      ensures ok <==> Representable(config, ttl, now)
      ensures ok ==> expiresAt == Expiry(config, ttl, now)
    {
      var effective := if ttl == 0 then config.defaultTtl else ttl;
      if effective == 0 {
        return true, None;
      }
      var sum := now + effective;
      ok, expiresAt := sum <= config.clockMax, Some(sum);
    }

    /** The body of `set`, also reached from `add` and `replace`. The expiry time comes first: when it panics, nothing
        has happened yet and no lock is held. */
    method Store(k: Key, v: Bytes, flags: nat, ttl: nat, now: nat) returns (r: Result, ghost evicted: seq<Key>)
      modifies this`data, this`memoryUsed, this`order, this`casCounter, this`accessCounter
      ensures r == if Representable(config, ttl, now) then Stored else Panicked
      ensures r.Panicked? ==> View() == old(View()) && evicted == []
      ensures r.Stored? ==> Evicts(config, TakeToken(old(View())), config.overhead + |v| + |k|, now, evicted)
      ensures r.Stored? ==> (View(), r) == ExecSet(config, old(View()), k, v, flags, ttl, now, evicted)
      ensures MadeRoom(config, old(View()), View(), config.overhead + |v| + |k|, r, evicted)
    {
      hide Wrap, MadeRoom;
      ghost var before := View();
      NoRoomMade(config, before, config.overhead + |v| + |k|, Panicked);
      evicted := [];
      var ok, expiresAt := CalculateExpiry(ttl, now);
      if !ok {
        return Panicked, [];
      }
      var token := NextCasUnique();
      var item := Item(v, flags, expiresAt, token);
      var newSize := Footprint(config, k, item);
      evicted := EnsureMemoryAvailable(newSize, now);
      if k in data {
        memoryUsed := Wrap(memoryUsed - Footprint(config, k, data[k]));
      }
      memoryUsed := Wrap(memoryUsed + newSize);
      data := data[k := item];
      RecordAccess(k);
      r := Stored;
      StoreMadeRoom(config, before, Event(Set(k, v, flags, ttl), now, evicted, r));
    }

    method SetItem(k: Key, v: Bytes, flags: nat, ttl: nat, now: nat) returns (r: Result, ghost evicted: seq<Key>)
      requires Valid()
      modifies this
      ensures Valid() && Recorded(old(history), history, Event(Set(k, v, flags, ttl), now, evicted, r))
      ensures r == if Representable(config, ttl, now) then Stored else Panicked
      ensures r.Panicked? ==> View() == old(View())
      ensures MadeRoom(config, old(View()), View(), config.overhead + |v| + |k|, r, evicted)
    {
      hide Wrap, ExecSet, Evicts, MadeRoom;
      ghost var before := View();
      r, evicted := Store(k, v, flags, ttl, now);
      if !r.Panicked? {
        Record(Event(Set(k, v, flags, ttl), now, evicted, r), before);
      }
    }

    method AddItem(k: Key, v: Bytes, flags: nat, ttl: nat, now: nat) returns (r: Result, ghost evicted: seq<Key>)
      requires Valid()
      modifies this
      ensures Valid() && Recorded(old(history), history, Event(Add(k, v, flags, ttl), now, evicted, r))
      ensures r == if Live(old(View()), k, now) then NotStored
                   else if Representable(config, ttl, now) then Stored else Panicked
      ensures r.Panicked? ==> View() == old(View())
      ensures MadeRoom(config, old(View()), View(), config.overhead + |v| + |k|, r, evicted)
    {
      hide Wrap, ExecSet, Evicts, MadeRoom;
      ghost var before := View();
      evicted := [];
      NoRoomMade(config, before, config.overhead + |v| + |k|, NotStored);
      if k in data && !Expired(data[k], now) {
        r := NotStored;
      } else {
        r, evicted := Store(k, v, flags, ttl, now);
      }
      if !r.Panicked? {
        Record(Event(Add(k, v, flags, ttl), now, evicted, r), before);
      }
    }

    method ReplaceItem(k: Key, v: Bytes, flags: nat, ttl: nat, now: nat) returns (r: Result, ghost evicted: seq<Key>)
      requires Valid()
      modifies this
      ensures Valid() && Recorded(old(history), history, Event(Replace(k, v, flags, ttl), now, evicted, r))
      ensures r == if !Live(old(View()), k, now) then NotStored
                   else if Representable(config, ttl, now) then Stored else Panicked
      ensures r.Panicked? ==> View() == old(View())
      ensures MadeRoom(config, old(View()), View(), config.overhead + |v| + |k|, r, evicted)
    {
      hide Wrap, ExecSet, Evicts, MadeRoom;
      ghost var before := View();
      evicted := [];
      NoRoomMade(config, before, config.overhead + |v| + |k|, NotStored);
      if k in data && !Expired(data[k], now) {
        r, evicted := Store(k, v, flags, ttl, now);
      } else {
        r := NotStored;
      }
      if !r.Panicked? {
        Record(Event(Replace(k, v, flags, ttl), now, evicted, r), before);
      }
    }

    /** A matching cas whose expiry time panics leaves everything as it was, but the lock it holds is poisoned. */
    method CompareAndSwap(k: Key, v: Bytes, flags: nat, ttl: nat, token: int, now: nat)
      returns (r: Result, ghost evicted: seq<Key>)
      requires Valid()
      modifies this
      ensures Recorded(old(history), history, Event(Cas(k, v, flags, ttl, token), now, evicted, r))
      ensures var matches := Live(old(View()), k, now) && old(data)[k].casUnique == token;
              && (r.Stored? <==> matches && Representable(config, ttl, now))
              && (r.Panicked? <==> matches && !Representable(config, ttl, now))
      ensures if r.Panicked? then poisoned && View() == old(View()) else Valid()
      ensures NoWrap(old(history)) ==>
                (r.Stored? && k in evicted
                 <==> Doomed(config, old(View()), Recency(old(history)), Cas(k, v, flags, ttl, token), now))
      ensures r.Stored? ==> memoryUsed <= config.maxMemory || (k in evicted && data.Keys == {k})
    {
      hide Wrap, Doomed, Recency, Evicts, Agrees;
      ghost var before := View();
      ghost var op := Cas(k, v, flags, ttl, token);
      evicted := [];
      if k !in data {
        r := NotFound;
      } else if Expired(data[k], now) {
        memoryUsed := Wrap(memoryUsed - Footprint(config, k, data[k]));
        data := data - {k};
        r := NotFound;
      } else if data[k].casUnique != token {
        r := CasMismatch;
      } else {
        r, evicted := Swap(k, v, flags, ttl, now);
        if r.Panicked? {
          poisoned := true;
          NotDoomed(config, before, Recency(history), op, now);
          return;
        }
      }
      Record(Event(op, now, evicted, r), before);
      if NoWrap(old(history)) {
        LruAgreesOnRuns(config, old(history));
        SelfEvictingIff(config, before, Recency(old(history)), Event(op, now, evicted, r));
      }
      if r.Stored? {
        StoredWithinLimit(config, before, Event(op, now, evicted, r));
      }
    }

    /** The matching branch of `cas`: uncharge the old item, make room, insert. */
    method Swap(k: Key, v: Bytes, flags: nat, ttl: nat, now: nat) returns (r: Result, ghost evicted: seq<Key>)
      requires k in data
      modifies this`data, this`memoryUsed, this`order, this`casCounter, this`accessCounter
      ensures r == if Representable(config, ttl, now) then Stored else Panicked
      ensures r.Panicked? ==> View() == old(View()) && evicted == []
      ensures r.Stored? ==>
                var s0 := Uncharge(config, TakeToken(old(View())), k);
                && Evicts(config, s0, config.overhead + |v| + |k|, now, evicted)
                && View() == Insert(config, RemoveAll(config, s0, evicted), k,
                                    NewItem(config, old(View()), v, flags, ttl, now))
    {
      evicted := [];
      var oldSize := Footprint(config, k, data[k]);
      var ok, expiresAt := CalculateExpiry(ttl, now);
      if !ok {
        return Panicked, [];
      }
      var token := NextCasUnique();
      var item := Item(v, flags, expiresAt, token);
      var newSize := Footprint(config, k, item);
      memoryUsed := Wrap(memoryUsed - oldSize);
      evicted := EnsureMemoryAvailable(newSize, now);
      memoryUsed := Wrap(memoryUsed + newSize);
      data := data[k := item];
      RecordAccess(k);
      r := Stored;
    }

    method DeleteItem(k: Key, now: nat) returns (r: Result)
      requires Valid()
      modifies this
      ensures Valid() && history == old(history) + [Event(Delete(k), now, [], r)]
      ensures r == if k in old(data) then Deleted else NotFound
      ensures k !in data
    {
      ghost var before := View();
      var removed := RemoveKey(k);
      r := if removed then Deleted else NotFound;
      Record(Event(Delete(k), now, [], r), before);
    }

    /** The in-place update of `append` and `prepend`. */
    method GrowItem(k: Key, value: Bytes, added: nat)
      requires k in data
      modifies this`data, this`memoryUsed, this`order, this`casCounter, this`accessCounter
      ensures View() == Grow(old(View()), k, value, added)
    {
      var token := NextCasUnique();
      data := data[k := data[k].(value := value, casUnique := token)];
      memoryUsed := Wrap(memoryUsed + added);
      RecordAccess(k);
    }

    /** The unexpired branch of `append` and `prepend`: make room if needed, then look again. */
    method ExtendLive(op: Op, now: nat) returns (r: Result, ghost evicted: seq<Key>)
      requires op.Append? || op.Prepend?
      requires op.key in data && !Expired(data[op.key], now)
      modifies this`data, this`memoryUsed, this`order, this`casCounter, this`accessCounter
      ensures Legal(config, old(View()), op, now, evicted)
      ensures (View(), r) == ExecExtend(config, old(View()), op, now, evicted)
    {
      evicted := [];
      if Wrap(memoryUsed + |op.value|) > config.maxMemory {
        evicted := EnsureMemoryAvailable(|op.value|, now);
      }
      if op.key in data && !Expired(data[op.key], now) {
        GrowItem(op.key, Extended(op, data[op.key].value), |op.value|);
        r := Stored;
      } else {
        r := NotStored;
      }
    }

    /** The branches of `append` and `prepend`. */
    method ExtendItem(op: Op, now: nat) returns (r: Result, ghost evicted: seq<Key>)
      requires op.Append? || op.Prepend?
      modifies this`data, this`memoryUsed, this`order, this`casCounter, this`accessCounter
      ensures Legal(config, old(View()), op, now, evicted)
      ensures (View(), r) == ExecExtend(config, old(View()), op, now, evicted)
    {
      hide Wrap, RemoveAll;
      evicted := [];
      if op.key !in data {
        r := NotStored;
      } else if Expired(data[op.key], now) {
        memoryUsed := Wrap(memoryUsed - Footprint(config, op.key, data[op.key]));
        data := data - {op.key};
        r := NotStored;
      } else {
        r, evicted := ExtendLive(op, now);
      }
    }

    /** `append` and `prepend` */
    method Extend(op: Op, now: nat) returns (r: Result, ghost evicted: seq<Key>)
      requires Valid()
      requires op.Append? || op.Prepend?
      modifies this
      ensures Valid() && history == old(history) + [Event(op, now, evicted, r)]
      ensures r == Stored || r == NotStored
      ensures r.Stored? <==> Live(old(View()), op.key, now) && op.key !in evicted
      ensures NoWrap(old(history)) ==>
                (r.Stored? <==> Live(old(View()), op.key, now)
                                && !Doomed(config, old(View()), Recency(old(history)), op, now))
      ensures r.Stored? ==>
                && op.key in data
                && data[op.key] == old(data)[op.key].(value := Extended(op, old(data)[op.key].value),
                                                      casUnique := old(casCounter))
      ensures r.NotStored? ==> op.key !in data
      ensures evicted != [] <==>
                Live(old(View()), op.key, now) && Wrap(old(memoryUsed) + |op.value|) > config.maxMemory
      ensures r.Stored? ==> memoryUsed <= config.maxMemory
    {
      hide Wrap, Doomed, Recency, RemoveAll, ExecExtend, Legal;
      ghost var before := View();
      r, evicted := ExtendItem(op, now);
      Record(Event(op, now, evicted, r), before);
      ExtendFacts(config, before, Event(op, now, evicted, r));
      EvictionIff(config, before, Event(op, now, evicted, r));
      if r.Stored? {
        StoredWithinLimit(config, before, Event(op, now, evicted, r));
      }
      if NoWrap(old(history)) {
        LruAgreesOnRuns(config, old(history));
        ExtendIff(config, before, Recency(old(history)), Event(op, now, evicted, r));
      }
    }

    method Flush(now: nat)
      requires Valid()
      modifies this
      ensures Valid() && history == old(history) + [Event(FlushAll, now, [], Flushed)]
      ensures data == map[] && memoryUsed == 0
    {
      ghost var before := View();
      data := map[];
      order := map[];
      memoryUsed := 0;
      Record(Event(FlushAll, now, [], Flushed), before);
    }
  }

  /** An answered call extends the run; one that panicked does not. */
  ghost predicate Recorded(before: seq<Event>, after: seq<Event>, e: Event) {
    after == if e.result.Panicked? then before else before + [e]
  }

  /** A set, add or replace of a `size`-byte item that answered `r` made room: it evicted exactly when it stored, an
      item was held and the sum was over the limit, and an exact counter is still exact and within the limit, or at
      the size of the item when that alone is over it. */
  ghost predicate MadeRoom(c: Config, s: State, s': State, size: nat, r: Result, evicted: seq<Key>) {
    && (evicted != [] <==> r.Stored? && s.data != map[] && Wrap(s.memoryUsed + size) > c.maxMemory)
    && (r.Stored? && s.memoryUsed == Total(c, s.data) && s.memoryUsed + size < U64 ==>
          s'.memoryUsed == Total(c, s'.data) <= Max(c.maxMemory, size))
  }

  lemma NoRoomMade(c: Config, s: State, size: nat, r: Result)
    requires !r.Stored?
    ensures MadeRoom(c, s, s, size, r, [])
  {
  }

  lemma StoreMadeRoom(c: Config, s: State, e: Event)
    requires ValidStep(c, s, e) && e.op.Set?
    ensures MadeRoom(c, s, Exec(c, s, e.op, e.now, e.evicted).0, Need(c, e.op), e.result, e.evicted)
  {
    hide Wrap, Evicts, Total, RemoveAll, Insert;
    EvictionIff(c, s, e);
    if s.memoryUsed == Total(c, s.data) && s.memoryUsed + Need(c, e.op) < U64 {
      SetWithinLimit(c, s, e);
    }
  }

  lemma ExtendFacts(c: Config, s: State, e: Event)
    requires (e.op.Append? || e.op.Prepend?) && ValidStep(c, s, e)
    ensures var s' := Exec(c, s, e.op, e.now, e.evicted).0;
            && (e.result.Stored? <==> Live(s, e.op.key, e.now) && e.op.key !in e.evicted)
            && (e.result.Stored? ==>
                  && e.op.key in s'.data
                  && s'.data[e.op.key] == s.data[e.op.key].(value := Extended(e.op, s.data[e.op.key].value),
                                                            casUnique := s.casCounter))
            && (!e.result.Stored? ==> e.result == NotStored && e.op.key !in s'.data)
  {
    hide RemoveAll, Wrap;
    RemoveAllEffect(c, s, e.evicted);
  }

  /** An eviction loop that started in `s`, has removed `ks` and is now in `s'`. */
  ghost predicate Evicting(c: Config, s: State, need: nat, now: nat, ks: seq<Key>, s': State)
    decreases |ks|
  {
    if ks == [] then s' == s
    else TooFull(c, s, need) && Victim(s, ks[0], now) && Evicting(c, Remove(c, s, ks[0]), need, now, ks[1..], s')
  }

  lemma {:induction false} EvictingSnoc(c: Config, s: State, need: nat, now: nat, ks: seq<Key>, s': State, k: Key)
    requires Evicting(c, s, need, now, ks, s')
    requires TooFull(c, s', need) && Victim(s', k, now)
    ensures Evicting(c, s, need, now, ks + [k], Remove(c, s', k))
    decreases |ks|
  {
    hide TooFull, Victim, Remove;
    if ks == [] {
      assert ([] + [k])[1..] == [];
    } else {
      assert (ks + [k])[1..] == ks[1..] + [k];
      EvictingSnoc(c, Remove(c, s, ks[0]), need, now, ks[1..], s', k);
    }
  }

  lemma {:induction false} EvictingDone(c: Config, s: State, need: nat, now: nat, ks: seq<Key>, s': State)
    requires Evicting(c, s, need, now, ks, s')
    requires !TooFull(c, s', need) || s'.data == map[]
    ensures Evicts(c, s, need, now, ks) && s' == RemoveAll(c, s, ks)
    decreases |ks|
  {
    hide TooFull, Victim, Remove;
    if ks != [] {
      EvictingDone(c, Remove(c, s, ks[0]), need, now, ks[1..], s');
    }
  }

  /** How one more key extends what the loop of `get_multi` collects. */
  lemma ScanStep(data: map<Key, Item>, keys: seq<Key>, i: nat, now: nat)
    requires i < |keys|
    ensures var k := keys[i];
            var live := k in data && !Expired(data[k], now);
            && Hits(data, keys[i..], now) == (if live then [(k, data[k])] else []) + Hits(data, keys[i + 1..], now)
            && KeysOf(Hits(data, keys[i..], now)) == (if live then [k] else []) + KeysOf(Hits(data, keys[i + 1..], now))
            && ExpiredKeys(data, keys[i..], now)
               == (if k in data && !live then [k] else []) + ExpiredKeys(data, keys[i + 1..], now)
  {
    assert keys[i..][1..] == keys[i + 1..];
    if keys[i] in data && !Expired(data[keys[i]], now) {
      assert Hits(data, keys[i..], now)[1..] == Hits(data, keys[i + 1..], now);
    }
  }
}
