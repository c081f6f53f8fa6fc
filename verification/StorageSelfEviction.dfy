/** When a cas, an append or a prepend evicts the very key it works on: told before the call from the recency list,
    and what that does to the byte counter. */
module StorageSelfEviction {
  import opened Base
  import opened StorageSpec
  import opened StorageHistory
  import opened StorageLru
  import opened StorageAccounting

  /** How many keys stand before `k`. */
  function Position(l: seq<Key>, k: Key): (r: nat)
    requires k in l
    ensures r < |l| && l[r] == k
    ensures forall i :: 0 <= i < r ==> l[i] != k
  {
    if l[0] == k then 0 else 1 + Position(l[1..], k)
  }

  /** The operation will call `ensure_memory_available`, and evicting every unexpired key that was used less
      recently than its own key does not make room at any point. Decided by the state before the call. */
  predicate Doomed(c: Config, s: State, l: seq<Key>, op: Op, now: nat) {
    var p, live := EvictionPoint(c, s, op, now), LiveOf(l, s, now);
    && p.Some? && op.key in live
    && forall n :: 0 <= n <= Position(live, op.key) ==> TooFull(c, RemoveAll(c, p.value.0, live[..n]), p.value.1)
  }

  // ---------------------------------------------------------------- one call

  /** An eviction list that is a shortest prefix reaches a live key exactly when no shorter one makes room. */
  lemma PrefixReaches(c: Config, s: State, live: seq<Key>, need: nat, now: nat, ks: seq<Key>, k: Key)
    requires k in live && k in s.data && !Expired(s.data[k], now)
    requires ShortestPrefix(c, s, live, need, now, ks)
    ensures k in ks <==> forall n :: 0 <= n <= Position(live, k) ==> TooFull(c, RemoveAll(c, s, live[..n]), need)
  {
    var at := Position(live, k);
    if at < |ks| {
      assert ks[at] == k by {
        assert |ks| > |live| ==> ks[..|live|][at] == live[at];
      }
      forall n | 0 <= n <= at
        ensures TooFull(c, RemoveAll(c, s, live[..n]), need)
      {
        SamePrefix(live, ks, n);
      }
    } else {
      assert ks == live[..|ks|];
      assert k !in ks;
      RemoveAllEffect(c, s, ks);
      assert !TooFull(c, RemoveAll(c, s, live[..|ks|]), need);
    }
  }

  lemma SamePrefix(live: seq<Key>, ks: seq<Key>, n: nat)
    requires n < |ks| && n <= |live|
    requires |ks| <= |live| ==> ks == live[..|ks|]
    requires |ks| > |live| ==> ks[..|live|] == live
    ensures ks[..n] == live[..n]
  {
    if |ks| > |live| {
      assert ks[..|live|][..n] == ks[..n];
    }
  }

  /** A call that makes room evicts its own live key if and only if that key is doomed. */
  lemma EvictsItselfIff(c: Config, s: State, l: seq<Key>, e: Event)
    requires Agrees(s, l) && s.accessCounter < U64 && ValidStep(c, s, e)
    requires EvictionPoint(c, s, e.op, e.now).Some? && Live(s, e.op.key, e.now)
    ensures e.op.key in e.evicted <==> Doomed(c, s, l, e.op, e.now)
  {
    var p, live := EvictionPoint(c, s, e.op, e.now).value, LiveOf(l, s, e.now);
    EvictionAt(c, s, l, e);
    assert p.0.data == s.data;
    hide ShortestPrefix, RemoveAll, ValidStep, EvictionPoint, TooFull;
    PrefixReaches(c, p.0, live, p.1, e.now, e.evicted, e.op.key);
  }

  /** For cas: the self-evicting ones are the doomed ones. */
  lemma SelfEvictingIff(c: Config, s: State, l: seq<Key>, e: Event)
    requires Agrees(s, l) && s.accessCounter < U64 && ValidStep(c, s, e)
    requires e.op.Cas?
    ensures SelfEvicting(e) <==> Doomed(c, s, l, e.op, e.now)
  {
    if EvictionPoint(c, s, e.op, e.now).Some? {
      EvictsItselfIff(c, s, l, e);
    }
  }

  /** For append and prepend: the value is stored if and only if the key is live and not doomed; whenever it is not
      stored the key is gone, so a doomed call answers NOT_STORED and destroys the item. */
  lemma ExtendIff(c: Config, s: State, l: seq<Key>, e: Event)
    requires Agrees(s, l) && s.accessCounter < U64 && ValidStep(c, s, e)
    requires e.op.Append? || e.op.Prepend?
    ensures e.result.Stored? <==> Live(s, e.op.key, e.now) && !Doomed(c, s, l, e.op, e.now)
    ensures e.result == Stored || e.result == NotStored
    ensures e.result.NotStored? ==> e.op.key !in Exec(c, s, e.op, e.now, e.evicted).0.data
  {
    hide Doomed, RemoveAll;
    RemoveAllEffect(c, s, e.evicted);
    if EvictionPoint(c, s, e.op, e.now).Some? {
      EvictsItselfIff(c, s, l, e);
    } else {
      NotDoomed(c, s, l, e.op, e.now);
    }
  }

  /** With the first `n` of the keys `live` gone, `need` more bytes are within the limit. */
  predicate Room(c: Config, s: State, live: seq<Key>, n: nat, need: nat) {
    n <= |live| && Wrap(RemoveAll(c, s, live[..n]).memoryUsed + need) <= c.maxMemory
  }

  lemma DoomedMeans(c: Config, s: State, l: seq<Key>, op: Op, now: nat)
    requires (op.Append? || op.Prepend?) && op.key in LiveOf(l, s, now)
    ensures var live := LiveOf(l, s, now);
            Doomed(c, s, l, op, now) <==>
              forall n :: 0 <= n <= Position(live, op.key) ==> !Room(c, s, live, n, |op.value|)
  {
    var live := LiveOf(l, s, now);
    hide RemoveAll, Wrap, Position, LiveOf;
    if TooFull(c, s, |op.value|) {
      assert EvictionPoint(c, s, op, now) == Some((s, |op.value|));
      forall n | 0 <= n <= Position(live, op.key)
        ensures Room(c, s, live, n, |op.value|) <==> !TooFull(c, RemoveAll(c, s, live[..n]), |op.value|)
      {
      }
    } else {
      NothingEvicted(c, s, live);
      assert Room(c, s, live, 0, |op.value|);
    }
  }

  /** The same in terms of the limit: an append or prepend stores if and only if its key is live and evicting some of
      the unexpired keys used less recently, the least recently used first, perhaps none, makes room for its data. */
  lemma ExtendStoredIff(c: Config, s: State, l: seq<Key>, e: Event)
    requires Agrees(s, l) && s.accessCounter < U64 && ValidStep(c, s, e)
    requires e.op.Append? || e.op.Prepend?
    ensures var live := LiveOf(l, s, e.now);
            && (Live(s, e.op.key, e.now) ==> e.op.key in live)
            && (e.result.Stored? <==>
                  && Live(s, e.op.key, e.now)
                  && exists n :: 0 <= n <= Position(live, e.op.key) && Room(c, s, live, n, |e.op.value|))
  {
    ExtendIff(c, s, l, e);
    assert Live(s, e.op.key, e.now) ==> e.op.key in l;
    hide ValidStep, Doomed, Room, Position, Agrees;
    if Live(s, e.op.key, e.now) {
      DoomedMeans(c, s, l, e.op, e.now);
    }
  }

  lemma NothingEvicted(c: Config, s: State, live: seq<Key>)
    ensures RemoveAll(c, s, live[..0]) == s
  {
  }

  lemma NotDoomed(c: Config, s: State, l: seq<Key>, op: Op, now: nat)
    requires EvictionPoint(c, s, op, now).None?
    ensures !Doomed(c, s, l, op, now)
  {
  }

  // ---------------------------------------------------------------- runs

  /** Bytes that cas calls on doomed keys have hidden from the counter since the last flush; every summand is
      decided by the state before its call. */
  function DoomedBytes(c: Config, h: seq<Event>): nat
    decreases |h|
  {
    if h == [] then 0
    else
      var e, before := h[|h| - 1], h[..|h| - 1];
      var s := StateAfter(c, before);
      if e.op.FlushAll? then 0
      else if e.op.Cas? && e.op.key in s.data && Doomed(c, s, Recency(before), e.op, e.now) then
        DoomedBytes(c, before) + Footprint(c, e.op.key, s.data[e.op.key])
      else DoomedBytes(c, before)
  }

  lemma {:induction false} DoomedIsLeaked(c: Config, h: seq<Event>)
    requires ValidRun(c, h) && NoWrap(h)
    ensures DoomedBytes(c, h) == Leaked(c, h)
    decreases |h|
  {
    if h != [] {
      var before, e := h[..|h| - 1], h[|h| - 1];
      DoomedIsLeaked(c, before);
      if e.op.Cas? {
        LruAgreesOnRuns(c, before);
        SelfEvictingIff(c, StateAfter(c, before), Recency(before), e);
      }
    }
  }

  /** The counter is exact, when the bytes held fit a word, if and only if the cas calls on doomed keys since the
      last flush hid a multiple of 2^64 bytes. */
  lemma CounterExactIff(c: Config, h: seq<Event>)
    requires ValidRun(c, h) && NoWrap(h)
    requires Total(c, StateAfter(c, h).data) < U64
    ensures StateAfter(c, h).memoryUsed == Total(c, StateAfter(c, h).data) <==> Wrap(DoomedBytes(c, h)) == 0
  {
    hide Wrap, StateAfter, Leaked, Total, DoomedBytes;
    DoomedIsLeaked(c, h);
    CounterExactIffNoLeak(c, h);
  }

  /** A stored cas keeps an exact counter exact if and only if its key was not doomed. */
  lemma CasKeepsCounterIff(c: Config, s: State, l: seq<Key>, e: Event)
    requires Agrees(s, l) && s.accessCounter < U64 && ValidStep(c, s, e) && e.op.Cas?
    requires 0 <= s.memoryUsed < U64 && s.memoryUsed == Total(c, s.data)
    requires e.op.key in s.data && 0 < Footprint(c, e.op.key, s.data[e.op.key]) < U64
    requires Total(c, Exec(c, s, e.op, e.now, e.evicted).0.data) < U64
    ensures var s' := Exec(c, s, e.op, e.now, e.evicted).0;
            s'.memoryUsed == Total(c, s'.data) <==> !Doomed(c, s, l, e.op, e.now)
  {
    hide Wrap, Total, Doomed, Exec, ValidStep, Agrees, SelfEvicting, Footprint;
    var s' := Exec(c, s, e.op, e.now, e.evicted).0;
    SelfEvictingIff(c, s, l, e);
    ShortfallStep(c, s, e);
    CounterIsWordStep(c, s, e);
    WrapZero(Total(c, s.data) - s.memoryUsed);
    WrapZero(Shortfall(c, s) + Footprint(c, e.op.key, s.data[e.op.key]));
    WrapZero(Total(c, s'.data) - s'.memoryUsed);
  }
}
