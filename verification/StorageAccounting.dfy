/** The byte counter against the bytes actually held, on sequential runs with cas included. */
module StorageAccounting {
  import opened Base
  import opened StorageSpec

  /** Bytes held: item size plus key length, over the map. */
  ghost function Total(c: Config, m: map<Key, Item>): nat
    decreases |m|
  {
    if m == map[] then 0
    else
      var k :| k in m;
      Footprint(c, k, m[k]) + Total(c, m - {k})
  }

  lemma {:induction false} TotalRemove(c: Config, m: map<Key, Item>, k: Key)
    requires k in m
    ensures Total(c, m) == Footprint(c, k, m[k]) + Total(c, m - {k})
    decreases |m|
  {
    var j :| j in m && Total(c, m) == Footprint(c, j, m[j]) + Total(c, m - {j});
    if j != k {
      TotalRemove(c, m - {j}, k);
      TotalRemove(c, m - {k}, j);
      assert m - {j} - {k} == m - {k} - {j};
    }
  }

  lemma TotalUpdate(c: Config, m: map<Key, Item>, k: Key, item: Item)
    ensures Total(c, m[k := item])
            == Total(c, m) - (if k in m then Footprint(c, k, m[k]) else 0) + Footprint(c, k, item)
  {
    TotalRemove(c, m[k := item], k);
    assert m[k := item] - {k} == m - {k};
    if k in m {
      TotalRemove(c, m, k);
    } else {
      assert m - {k} == m;
    }
  }

  /** By how much the counter is short of the bytes held, modulo 2^64. */
  ghost function Shortfall(c: Config, s: State): int {
    Wrap(Total(c, s.data) - s.memoryUsed)
  }

  lemma ShortfallRemove(c: Config, s: State, k: Key)
    ensures Shortfall(c, Remove(c, s, k)) == Shortfall(c, s)
    ensures k in s.data ==> Shortfall(c, Discard(c, s, k)) == Shortfall(c, s)
  {
    if k in s.data {
      TotalRemove(c, s.data, k);
    }
  }

  lemma {:induction false} ShortfallRemoveAll(c: Config, s: State, ks: seq<Key>)
    ensures Shortfall(c, RemoveAll(c, s, ks)) == Shortfall(c, s)
    decreases |ks|
  {
    if ks != [] {
      ShortfallRemove(c, s, ks[0]);
      ShortfallRemoveAll(c, Remove(c, s, ks[0]), ks[1..]);
    }
  }

  /** Inserting over an item that was not uncharged hides exactly that item's bytes. */
  lemma ShortfallInsert(c: Config, s: State, k: Key, item: Item)
    ensures Shortfall(c, Insert(c, s, k, item))
            == Wrap(Shortfall(c, s) - (if k in s.data then Footprint(c, k, s.data[k]) else 0))
  {
    hide Wrap;
    TotalUpdate(c, s.data, k, item);
    var was := if k in s.data then Footprint(c, k, s.data[k]) else 0;
    WrapInner(Total(c, s.data[k := item]), s.memoryUsed + Footprint(c, k, item));
    WrapInner(Total(c, s.data) - s.memoryUsed, was);
  }

  lemma ShortfallUncharge(c: Config, s: State, k: Key)
    ensures Shortfall(c, Uncharge(c, s, k))
            == Wrap(Shortfall(c, s) + (if k in s.data then Footprint(c, k, s.data[k]) else 0))
  {
    if k in s.data {
      WrapInner(Total(c, s.data), s.memoryUsed - Footprint(c, k, s.data[k]));
      WrapInner(Total(c, s.data) - s.memoryUsed, Footprint(c, k, s.data[k]));
    }
  }

  /** The cas stored a value although its own eviction loop had thrown out the item it replaced. */
  predicate SelfEvicting(e: Event) {
    e.op.Cas? && e.result.Stored? && e.op.key in e.evicted
  }

  lemma ShortfallSet(c: Config, s: State, k: Key, item: Item, ks: seq<Key>)
    ensures Shortfall(c, Insert(c, Uncharge(c, RemoveAll(c, TakeToken(s), ks), k), k, item)) == Shortfall(c, s)
  {
    hide Wrap, RemoveAll;
    var s1 := RemoveAll(c, TakeToken(s), ks);
    var was := if k in s1.data then Footprint(c, k, s1.data[k]) else 0;
    ShortfallRemoveAll(c, TakeToken(s), ks);
    ShortfallUncharge(c, s1, k);
    ShortfallInsert(c, Uncharge(c, s1, k), k, item);
    WrapInner(Total(c, s1.data) - s1.memoryUsed, was);
    WrapInner(Total(c, s1.data) - s1.memoryUsed + was, was);
  }

  lemma ShortfallCas(c: Config, s: State, e: Event)
    requires e.op.Cas? && ValidStep(c, s, e)
    ensures Shortfall(c, ExecCas(c, s, e.op, e.now, e.evicted).0)
            == if SelfEvicting(e) then Wrap(Shortfall(c, s) + Footprint(c, e.op.key, s.data[e.op.key]))
               else Shortfall(c, s)
  {
    if e.result.Stored? {
      ShortfallReplace(c, TakeToken(s), e.op.key, NewItem(c, s, e.op.value, e.op.flags, e.op.ttl, e.now), e.evicted);
    } else if e.op.key in s.data {
      ShortfallRemove(c, s, e.op.key);
    }
  }

  lemma ShortfallReplace(c: Config, s: State, k: Key, item: Item, ks: seq<Key>)
    requires k in s.data
    ensures Shortfall(c, Insert(c, RemoveAll(c, Uncharge(c, s, k), ks), k, item))
            == if k in ks then Wrap(Shortfall(c, s) + Footprint(c, k, s.data[k])) else Shortfall(c, s)
  {
    hide Wrap;
    var s0, was := Uncharge(c, s, k), Footprint(c, k, s.data[k]);
    var s1 := RemoveAll(c, s0, ks);
    ShortfallUncharge(c, s, k);
    ShortfallRemoveAll(c, s0, ks);
    RemoveAllEffect(c, s0, ks);
    ShortfallInsert(c, s1, k, item);
    WrapInner(Total(c, s.data) - s.memoryUsed, was);
    WrapInner(Total(c, s.data) - s.memoryUsed + was, was);
    WrapInner(Total(c, s.data) - s.memoryUsed + was, 0);
  }

  lemma ShortfallGrow(c: Config, s: State, k: Key, value: Bytes, added: nat)
    requires k in s.data && |value| == |s.data[k].value| + added
    ensures Shortfall(c, Grow(s, k, value, added)) == Shortfall(c, s)
  {
    hide Wrap;
    var item := s.data[k].(value := value, casUnique := s.casCounter);
    TotalUpdate(c, s.data, k, item);
    WrapInner(Total(c, s.data) + added, s.memoryUsed + added);
  }

  lemma ShortfallExtend(c: Config, s: State, e: Event)
    requires e.op.Append? || e.op.Prepend?
    ensures Shortfall(c, ExecExtend(c, s, e.op, e.now, e.evicted).0) == Shortfall(c, s)
  {
    hide Shortfall, RemoveAll;
    var k, s1 := e.op.key, RemoveAll(c, s, e.evicted);
    if Live(s, k, e.now) {
      ShortfallRemoveAll(c, s, e.evicted);
      if Live(s1, k, e.now) {
        ShortfallGrow(c, s1, k, Extended(e.op, s1.data[k].value), |e.op.value|);
      }
    } else if k in s.data {
      ShortfallRemove(c, s, k);
    }
  }

  /** One call changes the shortfall in exactly two cases: flush_all resets it, and a cas that evicts
      its own key raises it by the size of the item it replaced. */
  lemma ShortfallStep(c: Config, s: State, e: Event)
    requires ValidStep(c, s, e)
    ensures SelfEvicting(e) ==> e.op.key in s.data
    ensures Shortfall(c, Exec(c, s, e.op, e.now, e.evicted).0)
            == if e.op.FlushAll? then 0
               else if SelfEvicting(e) then Wrap(Shortfall(c, s) + Footprint(c, e.op.key, s.data[e.op.key]))
               else Shortfall(c, s)
  {
    match e.op
    case Get(k) => ShortfallRemove(c, s, k);
    case GetMulti(keys) =>
      var hit := KeysOf(Hits(s.data, keys, e.now));
      TouchAllEffect(s, hit);
      ShortfallRemoveAll(c, TouchAll(s, hit), ExpiredKeys(s.data, keys, e.now));
    case Delete(k) => ShortfallRemove(c, s, k);
    case Cas(_, _, _, _, _) => ShortfallCas(c, s, e);
    case Append(_, _) => ShortfallExtend(c, s, e);
    case Prepend(_, _) => ShortfallExtend(c, s, e);
    case FlushAll =>
    case Set(k, v, f, ttl) => ShortfallSet(c, s, k, NewItem(c, s, v, f, ttl, e.now), e.evicted);
    case Add(k, v, f, ttl) => ShortfallSet(c, s, k, NewItem(c, s, v, f, ttl, e.now), e.evicted);
    case Replace(k, v, f, ttl) => ShortfallSet(c, s, k, NewItem(c, s, v, f, ttl, e.now), e.evicted);
  }

  /** Bytes of items lost to self-evicting cas calls since the last flush. */
  function Leaked(c: Config, h: seq<Event>): nat
    decreases |h|
  {
    if h == [] then 0
    else
      var e, before := h[|h| - 1], h[..|h| - 1];
      var held := StateAfter(c, before).data;
      if e.op.FlushAll? then 0
      else if SelfEvicting(e) && e.op.key in held then Leaked(c, before) + Footprint(c, e.op.key, held[e.op.key])
      else Leaked(c, before)
  }

  lemma LeakStep(c: Config, s: State, e: Event, leaked: nat)
    requires ValidStep(c, s, e) && Shortfall(c, s) == Wrap(leaked)
    ensures SelfEvicting(e) ==> e.op.key in s.data
    ensures Shortfall(c, Exec(c, s, e.op, e.now, e.evicted).0)
            == Wrap(if e.op.FlushAll? then 0
                    else if SelfEvicting(e) then leaked + Footprint(c, e.op.key, s.data[e.op.key])
                    else leaked)
  {
    ShortfallStep(c, s, e);
    WrapId(0);
    hide Wrap, Exec, ValidStep, Footprint, Shortfall, SelfEvicting;
    if SelfEvicting(e) {
      WrapInner(leaked, Footprint(c, e.op.key, s.data[e.op.key]));
    }
  }

  /** On every run the counter is short by exactly the leaked bytes, modulo 2^64. */
  lemma {:induction false} AccountingOnRuns(c: Config, h: seq<Event>)
    requires ValidRun(c, h)
    ensures Shortfall(c, StateAfter(c, h)) == Wrap(Leaked(c, h))
    decreases |h|
  {
    if h == [] {
      assert Wrap(0) == 0;
    } else {
      hide Wrap, Exec, ValidStep, Footprint, Shortfall, SelfEvicting;
      var before, e := h[..|h| - 1], h[|h| - 1];
      AccountingOnRuns(c, before);
      LeakStep(c, StateAfter(c, before), e, Leaked(c, before));
    }
  }

  lemma {:induction false} CounterIsWord(c: Config, h: seq<Event>)
    requires ValidRun(c, h)
    ensures 0 <= StateAfter(c, h).memoryUsed < U64
    decreases |h|
  {
    if h != [] {
      CounterIsWord(c, h[..|h| - 1]);
      CounterIsWordStep(c, StateAfter(c, h[..|h| - 1]), h[|h| - 1]);
    }
  }

  lemma {:induction false} RemoveAllIsWord(c: Config, s: State, ks: seq<Key>)
    requires 0 <= s.memoryUsed < U64
    ensures 0 <= RemoveAll(c, s, ks).memoryUsed < U64
    decreases |ks|
  {
    if ks != [] {
      RemoveAllIsWord(c, Remove(c, s, ks[0]), ks[1..]);
    }
  }

  lemma CounterIsWordStep(c: Config, s: State, e: Event)
    requires 0 <= s.memoryUsed < U64
    ensures 0 <= Exec(c, s, e.op, e.now, e.evicted).0.memoryUsed < U64
  {
    RemoveAllIsWord(c, s, e.evicted);
    if e.op.GetMulti? {
      var hit := KeysOf(Hits(s.data, e.op.keys, e.now));
      TouchAllEffect(s, hit);
      RemoveAllIsWord(c, TouchAll(s, hit), ExpiredKeys(s.data, e.op.keys, e.now));
    }
  }

  /** The counter is exact, when the bytes held fit a word, if and only if nothing leaked modulo 2^64. */
  lemma CounterExactIffNoLeak(c: Config, h: seq<Event>)
    requires ValidRun(c, h)
    requires Total(c, StateAfter(c, h).data) < U64
    ensures StateAfter(c, h).memoryUsed == Total(c, StateAfter(c, h).data) <==> Wrap(Leaked(c, h)) == 0
  {
    hide Wrap, StateAfter, Leaked, Total;
    var s := StateAfter(c, h);
    AccountingOnRuns(c, h);
    CounterIsWord(c, h);
    WrapZero(Total(c, s.data) - s.memoryUsed);
  }

  /** Two calls are enough to leak, under every configuration and for every key: a set that fits, then a cas whose
      value does not fit even alone. The counter is then short by exactly the item the set stored. */
  lemma CasLeaks(c: Config, k: Key, u: Bytes, v: Bytes, ttl: nat, now: nat, h: seq<Event>)
    requires Representable(c, ttl, now)
    requires c.overhead + |u| + |k| <= c.maxMemory < c.overhead + |v| + |k| < U64
    requires h == [Event(Set(k, u, 0, ttl), now, [], Stored), Event(Cas(k, v, 0, ttl, 1), now, [k], Stored)]
    ensures ValidRun(c, h)
    ensures Total(c, StateAfter(c, h).data) == c.overhead + |v| + |k|
    ensures Leaked(c, h) == c.overhead + |u| + |k|
    ensures StateAfter(c, h).memoryUsed == Total(c, StateAfter(c, h).data) - Leaked(c, h)
  {
    var size := c.overhead + |u| + |k|;
    var s1 := State(map[k := Item(u, 0, Expiry(c, ttl, now), 1)], size, map[k := 0], 2, 1);
    CasLeaksSet(c, k, u, ttl, now);
    FirstCall(c, h[0]);
    assert h[..1] == [h[0]];
    CasLeaksSwap(c, k, u, v, ttl, now, s1);
    TotalRemove(c, StateAfter(c, h).data, k);
    assert StateAfter(c, h).data - {k} == map[];
  }

  lemma FirstCall(c: Config, e: Event)
    requires ValidStep(c, EMPTY, e) && !SelfEvicting(e)
    ensures ValidRun(c, [e]) && Leaked(c, [e]) == 0
    ensures StateAfter(c, [e]) == Exec(c, EMPTY, e.op, e.now, e.evicted).0
  {
    hide ValidStep, Exec, SelfEvicting;
    assert [e][..0] == [];
    assert Leaked(c, []) == 0 && ValidRun(c, []) && StateAfter(c, []) == EMPTY;
  }

  lemma CasLeaksSet(c: Config, k: Key, u: Bytes, ttl: nat, now: nat)
    requires Representable(c, ttl, now) && c.overhead + |u| + |k| <= c.maxMemory && c.overhead + |u| + |k| < U64
    ensures ValidStep(c, EMPTY, Event(Set(k, u, 0, ttl), now, [], Stored))
    ensures Exec(c, EMPTY, Set(k, u, 0, ttl), now, []).0
            == State(map[k := Item(u, 0, Expiry(c, ttl, now), 1)], c.overhead + |u| + |k|, map[k := 0], 2, 1)
  {
    assert RemoveAll(c, TakeToken(EMPTY), []) == TakeToken(EMPTY);
  }

  lemma CasLeaksSwap(c: Config, k: Key, u: Bytes, v: Bytes, ttl: nat, now: nat, s: State)
    requires Representable(c, ttl, now)
    requires c.overhead + |u| + |k| <= c.maxMemory < c.overhead + |v| + |k| < U64
    requires s == State(map[k := Item(u, 0, Expiry(c, ttl, now), 1)], c.overhead + |u| + |k|, map[k := 0], 2, 1)
    ensures ValidStep(c, s, Event(Cas(k, v, 0, ttl, 1), now, [k], Stored))
    ensures var s' := Exec(c, s, Cas(k, v, 0, ttl, 1), now, [k]).0;
            s'.data == map[k := Item(v, 0, Expiry(c, ttl, now), 2)] && s'.memoryUsed == |v| - |u|
  {
    var s0 := Uncharge(c, TakeToken(s), k);
    assert s0 == State(s.data, 0, s.order, 3, 1);
    CasLeaksEviction(c, k, c.overhead + |v| + |k|, now, s0);
    WrapBack(c.overhead + |u| + |k|, c.overhead + |v| + |k|);
    hide RemoveAll, Evicts, Wrap;
  }

  lemma WrapBack(a: nat, b: nat)
    requires a <= b < U64
    ensures Wrap(Wrap(0 - a) + b) == b - a
  {
  }

  lemma CasLeaksEviction(c: Config, k: Key, need: nat, now: nat, s: State)
    requires c.maxMemory < need < U64 && s.memoryUsed == 0
    requires s.data.Keys == {k} && s.order.Keys == {k} && s.order[k] == 0 && Live(s, k, now)
    ensures Evicts(c, s, need, now, [k])
    ensures RemoveAll(c, s, [k])
            == s.(data := map[], order := map[], memoryUsed := Wrap(0 - Footprint(c, k, s.data[k])))
  {
    var s1 := Remove(c, s, k);
    assert s1.data == map[] && s1.order == map[];
    assert [k][1..] == [];
    assert Evicts(c, s1, need, now, []);
  }
}
