/** What eviction achieves: when a call evicts, that it evicts no more than it needs, and the limit on the bytes held
    that follows for whole runs. */
module StorageLimit {
  import opened Base
  import opened StorageSpec
  import opened StorageAccounting

  // ---------------------------------------------------------------- one eviction loop

  /** A loop that needs room evicts while the counter plus the need is over the limit and there is an item left,
      and stops as soon as either ends. */
  lemma {:induction false} EvictsStops(c: Config, s: State, need: nat, now: nat, ks: seq<Key>)
    requires Evicts(c, s, need, now, ks)
    ensures ks != [] <==> s.data != map[] && Wrap(s.memoryUsed + need) > c.maxMemory
    ensures var r := RemoveAll(c, s, ks); Wrap(r.memoryUsed + need) <= c.maxMemory || r.data == map[]
    ensures forall n :: 0 <= n < |ks| ==> Wrap(RemoveAll(c, s, ks[..n]).memoryUsed + need) > c.maxMemory
    decreases |ks|
  {
    hide Wrap;
    if ks != [] {
      var s1 := Remove(c, s, ks[0]);
      EvictsStops(c, s1, need, now, ks[1..]);
      forall n | 0 <= n < |ks|
        ensures Wrap(RemoveAll(c, s, ks[..n]).memoryUsed + need) > c.maxMemory
      {
        if n > 0 {
          assert ks[..n][1..] == ks[1..][..n - 1];
        }
      }
    }
  }

  /** The bytes a call adds to the counter when it stores. */
  function Need(c: Config, op: Op): nat {
    match op
    case Set(k, v, _, _) => c.overhead + |v| + |k|
    case Add(k, v, _, _) => c.overhead + |v| + |k|
    case Replace(k, v, _, _) => c.overhead + |v| + |k|
    case Cas(k, v, _, _, _) => c.overhead + |v| + |k|
    case Append(_, v) => |v|
    case Prepend(_, v) => |v|
    case _ => 0
  }

  /** The counter a call compares with the limit: cas has already taken off the item it replaces. */
  function Charged(c: Config, s: State, op: Op): int {
    if op.Cas? && op.key in s.data then Wrap(s.memoryUsed - Footprint(c, op.key, s.data[op.key])) else s.memoryUsed
  }

  /** The call gets as far as making room. */
  predicate ReachesStore(s: State, op: Op, now: nat) {
    Stores(s, op, now) || ((op.Append? || op.Prepend?) && Live(s, op.key, now))
  }

  /** A call evicts exactly when it gets to its store, something is held and the need does not fit; and it stops as
      soon as the need fits or nothing is left. */
  lemma EvictionIff(c: Config, s: State, e: Event)
    requires ValidStep(c, s, e)
    ensures e.evicted != [] <==> && ReachesStore(s, e.op, e.now) && s.data != map[]
                                 && Wrap(Charged(c, s, e.op) + Need(c, e.op)) > c.maxMemory
  {
    hide Wrap;
    var p := EvictionPoint(c, s, e.op, e.now);
    if p.Some? {
      EvictsStops(c, p.value.0, p.value.1, e.now, e.evicted);
    }
  }

  // ---------------------------------------------------------------- the limit after one call

  /** A stored append or prepend leaves the counter within the limit. So does a stored cas, unless it had to evict
      everything, the item it replaces included. */
  lemma StoredWithinLimit(c: Config, s: State, e: Event)
    requires ValidStep(c, s, e) && e.result.Stored?
    requires e.op.Append? || e.op.Prepend? || e.op.Cas?
    ensures var s' := Exec(c, s, e.op, e.now, e.evicted).0;
            || s'.memoryUsed <= c.maxMemory
            || (e.op.Cas? && e.op.key in e.evicted && s'.data.Keys == {e.op.key})
  {
    if e.op.Cas? {
      SwapWithinLimit(c, s, e);
    } else {
      ExtendWithinLimit(c, s, e);
    }
  }

  lemma ExtendWithinLimit(c: Config, s: State, e: Event)
    requires ValidStep(c, s, e) && e.result.Stored? && (e.op.Append? || e.op.Prepend?)
    ensures Exec(c, s, e.op, e.now, e.evicted).0.memoryUsed <= c.maxMemory
  {
    hide Wrap, RemoveAll, Evicts, Extended;
    if TooFull(c, s, |e.op.value|) {
      EvictsStops(c, s, |e.op.value|, e.now, e.evicted);
    } else {
      NothingRemoved(c, s);
    }
  }

  lemma SwapWithinLimit(c: Config, s: State, e: Event)
    requires ValidStep(c, s, e) && e.result.Stored? && e.op.Cas?
    ensures var s' := Exec(c, s, e.op, e.now, e.evicted).0;
            s'.memoryUsed <= c.maxMemory || (e.op.key in e.evicted && s'.data.Keys == {e.op.key})
  {
    hide Wrap, RemoveAll, Evicts;
    var s0 := Uncharge(c, TakeToken(s), e.op.key);
    EvictsStops(c, s0, Need(c, e.op), e.now, e.evicted);
    RemoveAllEffect(c, s0, e.evicted);
  }

  lemma NothingRemoved(c: Config, s: State)
    ensures RemoveAll(c, s, []) == s
  {
  }

  lemma TotalFits(c: Config, m: map<Key, Item>, k: Key)
    requires k in m
    ensures Footprint(c, k, m[k]) <= Total(c, m)
  {
    TotalRemove(c, m, k);
  }

  lemma {:induction false} TotalRemoveAll(c: Config, s: State, ks: seq<Key>)
    ensures Total(c, RemoveAll(c, s, ks).data) <= Total(c, s.data)
    decreases |ks|
  {
    if ks != [] {
      if ks[0] in s.data {
        TotalRemove(c, s.data, ks[0]);
      }
      TotalRemoveAll(c, Remove(c, s, ks[0]), ks[1..]);
    }
  }

  /** The counter and the bytes held, `leaked` bytes apart modulo 2^64: a counter within the limit bounds the bytes. */
  lemma CounterBounds(x: int, total: nat, leaked: nat, limit: nat)
    requires Wrap(total - leaked) == x <= limit && total < U64
    ensures total <= limit + leaked
  {
    if total >= leaked {
      WrapId(total - leaked);
    }
  }

  /** A store as set, add and replace do it leaves no more bytes than the limit allows, leaked bytes apart, or than the
      item it stores alone. */
  lemma SetBound(c: Config, s: State, k: Key, item: Item, now: nat, ks: seq<Key>, leaked: nat)
    requires Shortfall(c, s) == Wrap(leaked) && Total(c, s.data) + Footprint(c, k, item) < U64
    requires Evicts(c, TakeToken(s), Footprint(c, k, item), now, ks)
    ensures var r := RemoveAll(c, TakeToken(s), ks);
            && Total(c, r.data[k := item]) <= Max(c.maxMemory + leaked, Footprint(c, k, item))
            && Total(c, r.data[k := item]) <= Total(c, s.data) + Footprint(c, k, item)
  {
    hide Wrap, Evicts, RemoveAll, Total;
    var r, need := RemoveAll(c, TakeToken(s), ks), Footprint(c, k, item);
    EvictsStops(c, TakeToken(s), need, now, ks);
    ShortfallRemoveAll(c, TakeToken(s), ks);
    TotalRemoveAll(c, TakeToken(s), ks);
    TotalUpdate(c, r.data, k, item);
    if r.data == map[] {
      EmptyTotal(c);
    } else {
      Balance(Total(c, r.data), r.memoryUsed, leaked, need);
      CounterBounds(Wrap(r.memoryUsed + need), Total(c, r.data) + need, leaked, c.maxMemory);
    }
  }

  lemma EmptyTotal(c: Config)
    ensures Total(c, map[]) == 0
  {
  }

  lemma Balance(total: nat, counter: int, leaked: nat, need: nat)
    requires Wrap(total - counter) == Wrap(leaked)
    ensures Wrap(counter + need) == Wrap(total + need - leaked)
  {
    hide Wrap;
    WrapInner(total + need, total - counter);
    WrapInner(total + need, leaked);
    assert total + need - (total - counter) == counter + need;
  }

  /** A set, add or replace that stores, started with an exact counter, leaves the counter within the limit, or at the
      size of its item when that alone is over the limit. */
  lemma SetWithinLimit(c: Config, s: State, e: Event)
    requires ValidStep(c, s, e) && e.result.Stored? && (e.op.Set? || e.op.Add? || e.op.Replace?)
    requires s.memoryUsed == Total(c, s.data) && s.memoryUsed + Need(c, e.op) < U64
    ensures var s' := Exec(c, s, e.op, e.now, e.evicted).0;
            s'.memoryUsed == Total(c, s'.data) <= Max(c.maxMemory, Need(c, e.op))
  {
    hide Wrap, RemoveAll, Evicts, Total;
    var s' := Exec(c, s, e.op, e.now, e.evicted).0;
    var item := NewItem(c, s, e.op.value, e.op.flags, e.op.ttl, e.now);
    WrapId(0);
    SetBound(c, s, e.op.key, item, e.now, e.evicted, 0);
    ShortfallStep(c, s, e);
    CounterIsWordStep(c, s, e);
    WrapZero(Total(c, s'.data) - s'.memoryUsed);
  }

  // ---------------------------------------------------------------- the limit on runs

  /** The largest item a call of the run has stored from scratch. */
  function Largest(c: Config, h: seq<Event>): nat
    decreases |h|
  {
    if h == [] then 0
    else
      var e, before := h[|h| - 1], h[..|h| - 1];
      if e.result.Stored? && !e.op.Append? && !e.op.Prepend? then Max(Largest(c, before), Need(c, e.op))
      else Largest(c, before)
  }

  /** Every call of the run found the bytes held, and what it was to add to them, within the address space. */
  ghost predicate Addressable(c: Config, h: seq<Event>) {
    forall i :: 0 <= i < |h| ==> Total(c, StateAfter(c, h[..i]).data) + Need(c, h[i].op) < U64
  }

  lemma DropBound(c: Config, s: State, e: Event)
    requires ValidStep(c, s, e) && !e.result.Stored?
    ensures Total(c, Exec(c, s, e.op, e.now, e.evicted).0.data) <= Total(c, s.data)
  {
    hide Wrap, RemoveAll, Total;
    TotalRemoveAll(c, s, e.evicted);
    if e.op.GetMulti? {
      var hit := KeysOf(Hits(s.data, e.op.keys, e.now));
      TouchAllEffect(s, hit);
      TotalRemoveAll(c, TouchAll(s, hit), ExpiredKeys(s.data, e.op.keys, e.now));
    } else if e.op.FlushAll? {
      EmptyTotal(c);
    } else if e.op.key in s.data {
      TotalRemove(c, s.data, e.op.key);
    }
  }

  /** A stored append, prepend or cas. */
  lemma ReplaceBound(c: Config, s: State, e: Event, leaked: nat)
    requires ValidStep(c, s, e) && e.result.Stored? && (e.op.Append? || e.op.Prepend? || e.op.Cas?)
    requires Total(c, s.data) + Need(c, e.op) < U64
    requires Shortfall(c, Exec(c, s, e.op, e.now, e.evicted).0) == Wrap(leaked)
    ensures Total(c, Exec(c, s, e.op, e.now, e.evicted).0.data)
            <= Max(c.maxMemory + leaked, if e.op.Cas? then Need(c, e.op) else 0)
  {
    hide Wrap, RemoveAll, Total, Evicts;
    var s' := Exec(c, s, e.op, e.now, e.evicted).0;
    StoredWithinLimit(c, s, e);
    GrownTotal(c, s, e);
    if s'.memoryUsed <= c.maxMemory {
      Balance(Total(c, s'.data), s'.memoryUsed, leaked, 0);
      CounterBounds(s'.memoryUsed, Total(c, s'.data), leaked, c.maxMemory);
    }
  }

  /** A stored append, prepend or cas adds at most its need, and its counter is a word. */
  lemma GrownTotal(c: Config, s: State, e: Event)
    requires ValidStep(c, s, e) && e.result.Stored? && (e.op.Append? || e.op.Prepend? || e.op.Cas?)
    ensures var s' := Exec(c, s, e.op, e.now, e.evicted).0;
            && Total(c, s'.data) <= Total(c, s.data) + Need(c, e.op)
            && (s'.data.Keys == {e.op.key} && e.op.Cas? ==> Total(c, s'.data) == Need(c, e.op))
            && Wrap(s'.memoryUsed) == s'.memoryUsed
  {
    hide RemoveAll, Total, Evicts, Wrap;
    var k, s' := e.op.key, Exec(c, s, e.op, e.now, e.evicted).0;
    var s0 := if e.op.Cas? then Uncharge(c, TakeToken(s), k) else s;
    var r := RemoveAll(c, s0, e.evicted);
    TotalRemoveAll(c, s0, e.evicted);
    TotalUpdate(c, r.data, k, s'.data[k]);
    WrapTwice(r.memoryUsed + Need(c, e.op));
    if s'.data.Keys == {k} {
      TotalRemove(c, s'.data, k);
      assert s'.data - {k} == map[];
      EmptyTotal(c);
    }
  }

  lemma WrapTwice(x: int)
    ensures Wrap(Wrap(x)) == Wrap(x)
  {
  }

  /** One more call: the bytes held grow past the limit, leaked bytes apart, only to the size of the item it stores. */
  lemma BoundStep(c: Config, s: State, e: Event, before: nat, after: nat)
    requires ValidStep(c, s, e) && Total(c, s.data) + Need(c, e.op) < U64
    requires Shortfall(c, s) == Wrap(before) && Shortfall(c, Exec(c, s, e.op, e.now, e.evicted).0) == Wrap(after)
    requires before <= after
    ensures Total(c, Exec(c, s, e.op, e.now, e.evicted).0.data)
            <= if !e.result.Stored? then Total(c, s.data)
               else if e.op.Append? || e.op.Prepend? then c.maxMemory + after
               else Max(c.maxMemory + after, Need(c, e.op))
  {
    hide RemoveAll, Total, Evicts, Wrap, Shortfall;
    if !e.result.Stored? {
      DropBound(c, s, e);
    } else if e.op.Append? || e.op.Prepend? || e.op.Cas? {
      ReplaceBound(c, s, e, after);
    } else {
      var item := NewItem(c, s, e.op.value, e.op.flags, e.op.ttl, e.now);
      SetBound(c, s, e.op.key, item, e.now, e.evicted, before);
    }
  }

  /** On every run, cas included, the bytes held stay within the larger of the limit and the largest item stored, plus
      what self-evicting cas calls have hidden from the counter. */
  lemma {:induction false} MemoryBound(c: Config, h: seq<Event>)
    requires ValidRun(c, h) && Addressable(c, h)
    ensures Total(c, StateAfter(c, h).data) <= Max(c.maxMemory, Largest(c, h)) + Leaked(c, h)
    decreases |h|
  {
    if h == [] {
      EmptyTotal(c);
    } else {
      var before, e := h[..|h| - 1], h[|h| - 1];
      AddressableBefore(c, h);
      MemoryBound(c, before);
      AccountingOnRuns(c, before);
      AccountingOnRuns(c, h);
      OneMore(c, h);
      hide Wrap, Exec, ValidStep, Shortfall, Total, Need, Largest, Leaked, ValidRun, Addressable, StateAfter;
      if e.op.FlushAll? {
        FlushEmpties(c, StateAfter(c, before), e);
      } else {
        BoundStep(c, StateAfter(c, before), e, Leaked(c, before), Leaked(c, h));
      }
    }
  }

  lemma AddressableBefore(c: Config, h: seq<Event>)
    requires h != [] && Addressable(c, h)
    ensures var before, e := h[..|h| - 1], h[|h| - 1];
            Addressable(c, before) && Total(c, StateAfter(c, before).data) + Need(c, e.op) < U64
  {
    var before := h[..|h| - 1];
    assert forall i :: 0 <= i < |before| ==> before[..i] == h[..i];
  }

  /** What the last call of a run adds. */
  lemma OneMore(c: Config, h: seq<Event>)
    requires h != [] && ValidRun(c, h)
    ensures var before, e := h[..|h| - 1], h[|h| - 1];
            && ValidStep(c, StateAfter(c, before), e)
            && StateAfter(c, h) == Exec(c, StateAfter(c, before), e.op, e.now, e.evicted).0
            && (!e.op.FlushAll? ==> Leaked(c, before) <= Leaked(c, h))
            && Largest(c, before) <= Largest(c, h)
            && (e.result.Stored? && !e.op.Append? && !e.op.Prepend? ==> Need(c, e.op) <= Largest(c, h))
  {
    hide Exec, ValidStep, Footprint, Need, SelfEvicting;
  }

  lemma FlushEmpties(c: Config, s: State, e: Event)
    requires e.op.FlushAll?
    ensures Total(c, Exec(c, s, e.op, e.now, e.evicted).0.data) == 0
  {
  }

  /** So a run on which nothing leaked keeps its counter exact and within that bound. */
  lemma CounterBound(c: Config, h: seq<Event>)
    requires ValidRun(c, h) && Addressable(c, h) && Leaked(c, h) == 0
    requires Total(c, StateAfter(c, h).data) < U64
    ensures StateAfter(c, h).memoryUsed == Total(c, StateAfter(c, h).data) <= Max(c.maxMemory, Largest(c, h))
  {
    hide StateAfter, Total, Wrap;
    MemoryBound(c, h);
    WrapId(0);
    CounterExactIffNoLeak(c, h);
  }
}
