/** The cache storage as values: its state, what each operation does to it, and runs of operations.
    One clock reading (`now`) is taken per operation. */
module StorageSpec {
  import opened Base

  type Key = Bytes

  /** `overhead` is the size of a `CacheItem` without its value, `clockMax` the last second an `Instant` can hold
      (2^63 - 1 where its seconds are an i64). */
  datatype Config = Config(maxMemory: nat, defaultTtl: nat, overhead: nat, clockMax: nat)

  datatype Item = Item(value: Bytes, flags: nat, expiresAt: Option<nat>, casUnique: int)

  datatype State = State(
    data: map<Key, Item>,
    memoryUsed: int,
    order: map<Key, int>,
    casCounter: int,
    accessCounter: int)

  const EMPTY := State(map[], 0, map[], 1, 0)

  datatype Op =
    | Get(key: Key)
    | GetMulti(keys: seq<Key>)
    | Set(key: Key, value: Bytes, flags: nat, ttl: nat)
    | Add(key: Key, value: Bytes, flags: nat, ttl: nat)
    | Replace(key: Key, value: Bytes, flags: nat, ttl: nat)
    | Cas(key: Key, value: Bytes, flags: nat, ttl: nat, token: int)
    | Delete(key: Key)
    | Append(key: Key, value: Bytes)
    | Prepend(key: Key, value: Bytes)
    | FlushAll

  datatype Result =
    | Hit(item: Item)
    | Miss
    | Items(items: seq<(Key, Item)>)
    | Stored
    | NotStored
    | NotFound
    | CasMismatch
    | Deleted
    | Flushed
    | Panicked  // the expiry time is past the clock's range

  // ---------------------------------------------------------------- building blocks

  function Footprint(c: Config, k: Key, item: Item): nat {
    c.overhead + |item.value| + |k|
  }

  predicate Expired(item: Item, now: nat) {
    item.expiresAt.Some? && now >= item.expiresAt.value
  }

  predicate Live(s: State, k: Key, now: nat) {
    k in s.data && !Expired(s.data[k], now)
  }

  function EffectiveTtl(c: Config, ttl: nat): nat {
    if ttl == 0 then c.defaultTtl else ttl
  }

  /** The addition in `calculate_expiry` does not overflow the clock; otherwise it panics. */
  predicate Representable(c: Config, ttl: nat, now: nat) {
    EffectiveTtl(c, ttl) == 0 || now + EffectiveTtl(c, ttl) <= c.clockMax
  }

  /** `calculate_expiry` */
  function Expiry(c: Config, ttl: nat, now: nat): Option<nat> {
    if EffectiveTtl(c, ttl) == 0 then None else Some(now + EffectiveTtl(c, ttl))
  }

  /** `record_access` */
  function Touch(s: State, k: Key): State {
    s.(order := s.order[k := s.accessCounter], accessCounter := Wrap(s.accessCounter + 1))
  }

  function TouchAll(s: State, ks: seq<Key>): State
    decreases |ks|
  {
    if ks == [] then s else TouchAll(Touch(s, ks[0]), ks[1..])
  }

  /** `next_cas_unique`, its effect on the counter */
  function TakeToken(s: State): State {
    s.(casCounter := Wrap(s.casCounter + 1))
  }

  /** `delete` */
  function Remove(c: Config, s: State, k: Key): State {
    if k in s.data then
      s.(data := s.data - {k}, memoryUsed := Wrap(s.memoryUsed - Footprint(c, k, s.data[k])), order := s.order - {k})
    else s
  }

  function RemoveAll(c: Config, s: State, ks: seq<Key>): State
    decreases |ks|
  {
    if ks == [] then s else RemoveAll(c, Remove(c, s, ks[0]), ks[1..])
  }

  /** The removal of an expired item inside cas, append and prepend: the access order keeps its entry. */
  function Discard(c: Config, s: State, k: Key): State
    requires k in s.data
  {
    s.(data := s.data - {k}, memoryUsed := Wrap(s.memoryUsed - Footprint(c, k, s.data[k])))
  }

  /** Charge an item, insert it, record the access. */
  function Insert(c: Config, s: State, k: Key, item: Item): State {
    Touch(s.(data := s.data[k := item], memoryUsed := Wrap(s.memoryUsed + Footprint(c, k, item))), k)
  }

  /** The counter update of `set` and `cas` for the item about to be replaced. */
  function Uncharge(c: Config, s: State, k: Key): State {
    if k in s.data then s.(memoryUsed := Wrap(s.memoryUsed - Footprint(c, k, s.data[k]))) else s
  }

  function NewItem(c: Config, s: State, value: Bytes, flags: nat, ttl: nat, now: nat): Item {
    Item(value, flags, Expiry(c, ttl, now), s.casCounter)
  }

  // ---------------------------------------------------------------- eviction

  predicate TooFull(c: Config, s: State, need: nat) {
    Wrap(s.memoryUsed + need) > c.maxMemory
  }

  /** The keys the scan of `find_lru_key` compares; its running minimum starts at the largest u64. */
  predicate Candidate(s: State, k: Key, now: nat) {
    k in s.order && Live(s, k, now) && s.order[k] < U64 - 1
  }

  /** A key `find_lru_key` may return: the least recently used candidate, or any key when there is none. */
  ghost predicate Victim(s: State, k: Key, now: nat) {
    && k in s.data
    && forall j :: Candidate(s, j, now) ==> Candidate(s, k, now) && s.order[k] <= s.order[j]
  }

  /** `ks` is what one call of `ensure_memory_available` may evict, in that order. */
  ghost predicate Evicts(c: Config, s: State, need: nat, now: nat, ks: seq<Key>)
    decreases |ks|
  {
    if ks == [] then !TooFull(c, s, need) || s.data == map[]
    else TooFull(c, s, need) && Victim(s, ks[0], now) && Evicts(c, Remove(c, s, ks[0]), need, now, ks[1..])
  }

  // ---------------------------------------------------------------- operations

  /** The operation reaches its store: set always, add if the key is not live, replace if it is, cas if it is live
      with this token. */
  predicate Stores(s: State, op: Op, now: nat) {
    match op
    case Set(_, _, _, _) => true
    case Add(k, _, _, _) => !Live(s, k, now)
    case Replace(k, _, _, _) => Live(s, k, now)
    case Cas(k, _, _, _, token) => Live(s, k, now) && s.data[k].casUnique == token
    case _ => false
  }

  /** It gets there with an expiry time past the clock's range. The item is built before anything is changed, so
      the panic leaves the storage as it was. */
  predicate Overruns(c: Config, s: State, op: Op, now: nat) {
    Stores(s, op, now) && !Representable(c, op.ttl, now)
  }

  /** The state in which an operation calls `ensure_memory_available`, and the bytes it asks for;
      None when the operation does not call it. */
  function EvictionPoint(c: Config, s: State, op: Op, now: nat): Option<(State, nat)> {
    if Overruns(c, s, op, now) then None else Demand(c, s, op, now)
  }

  function Demand(c: Config, s: State, op: Op, now: nat): Option<(State, nat)> {
    match op
    case Set(k, v, f, ttl) => StorePoint(c, s, k, v)
    case Add(k, v, f, ttl) => if Live(s, k, now) then None else StorePoint(c, s, k, v)
    case Replace(k, v, f, ttl) => if Live(s, k, now) then StorePoint(c, s, k, v) else None
    case Cas(k, v, f, ttl, token) =>
      if Live(s, k, now) && s.data[k].casUnique == token then
        Some((Uncharge(c, TakeToken(s), k), c.overhead + |v| + |k|))
      else None
    case Append(k, v) => if Live(s, k, now) && TooFull(c, s, |v|) then Some((s, |v|)) else None
    case Prepend(k, v) => if Live(s, k, now) && TooFull(c, s, |v|) then Some((s, |v|)) else None
    case _ => None
  }

  function StorePoint(c: Config, s: State, k: Key, v: Bytes): Option<(State, nat)> {
    Some((TakeToken(s), c.overhead + |v| + |k|))
  }

  ghost predicate Legal(c: Config, s: State, op: Op, now: nat, evicted: seq<Key>) {
    match EvictionPoint(c, s, op, now)
    case None => evicted == []
    case Some(p) => Evicts(c, p.0, p.1, now, evicted)
  }

  function Hits(data: map<Key, Item>, keys: seq<Key>, now: nat): seq<(Key, Item)> {
    if keys == [] then []
    else if keys[0] in data && !Expired(data[keys[0]], now) then
      [(keys[0], data[keys[0]])] + Hits(data, keys[1..], now)
    else Hits(data, keys[1..], now)
  }

  function KeysOf(items: seq<(Key, Item)>): seq<Key> {
    if items == [] then [] else [items[0].0] + KeysOf(items[1..])
  }

  function ExpiredKeys(data: map<Key, Item>, keys: seq<Key>, now: nat): seq<Key> {
    if keys == [] then []
    else if keys[0] in data && Expired(data[keys[0]], now) then [keys[0]] + ExpiredKeys(data, keys[1..], now)
    else ExpiredKeys(data, keys[1..], now)
  }

  function ExecSet(c: Config, s: State, k: Key, v: Bytes, f: nat, ttl: nat, now: nat, evicted: seq<Key>)
    : (State, Result)
  {
    var s1 := RemoveAll(c, TakeToken(s), evicted);
    (Insert(c, Uncharge(c, s1, k), k, NewItem(c, s, v, f, ttl, now)), Stored)
  }

  function ExecCas(c: Config, s: State, op: Op, now: nat, evicted: seq<Key>): (State, Result)
    requires op.Cas?
  {
    if op.key !in s.data then (s, NotFound)
    else if Expired(s.data[op.key], now) then (Discard(c, s, op.key), NotFound)
    else if s.data[op.key].casUnique != op.token then (s, CasMismatch)
    else
      var s1 := RemoveAll(c, Uncharge(c, TakeToken(s), op.key), evicted);
      (Insert(c, s1, op.key, NewItem(c, s, op.value, op.flags, op.ttl, now)), Stored)
  }

  /** An item that grew in place by `added` bytes and got a new token. */
  function Grow(s: State, k: Key, value: Bytes, added: nat): State
    requires k in s.data
  {
    var item := s.data[k].(value := value, casUnique := s.casCounter);
    Touch(TakeToken(s).(data := s.data[k := item], memoryUsed := Wrap(s.memoryUsed + added)), k)
  }

  /** `append` and `prepend` */
  function ExecExtend(c: Config, s: State, op: Op, now: nat, evicted: seq<Key>): (State, Result)
    requires op.Append? || op.Prepend?
  {
    if op.key !in s.data then (s, NotStored)
    else if Expired(s.data[op.key], now) then (Discard(c, s, op.key), NotStored)
    else
      var s1 := RemoveAll(c, s, evicted);
      if Live(s1, op.key, now) then (Grow(s1, op.key, Extended(op, s1.data[op.key].value), |op.value|), Stored)
      else (s1, NotStored)
  }

  function Extended(op: Op, current: Bytes): Bytes
    requires op.Append? || op.Prepend?
  {
    if op.Append? then current + op.value else op.value + current
  }

  function Exec(c: Config, s: State, op: Op, now: nat, evicted: seq<Key>): (State, Result) {
    if Overruns(c, s, op, now) then (s, Panicked) else Answer(c, s, op, now, evicted)
  }

  /** The calls that return. */
  function Answer(c: Config, s: State, op: Op, now: nat, evicted: seq<Key>): (State, Result) {
    match op
    case Get(k) =>
      if k !in s.data then (s, Miss)
      else if Expired(s.data[k], now) then (Remove(c, s, k), Miss)
      else (Touch(s, k), Hit(s.data[k]))
    case GetMulti(keys) =>
      var hits := Hits(s.data, keys, now);
      (RemoveAll(c, TouchAll(s, KeysOf(hits)), ExpiredKeys(s.data, keys, now)), Items(hits))
    case Set(k, v, f, ttl) => ExecSet(c, s, k, v, f, ttl, now, evicted)
    case Add(k, v, f, ttl) => if Live(s, k, now) then (s, NotStored) else ExecSet(c, s, k, v, f, ttl, now, evicted)
    case Replace(k, v, f, ttl) => if Live(s, k, now) then ExecSet(c, s, k, v, f, ttl, now, evicted) else (s, NotStored)
    case Cas(_, _, _, _, _) => ExecCas(c, s, op, now, evicted)
    case Delete(k) => (Remove(c, s, k), if k in s.data then Deleted else NotFound)
    case Append(_, _) => ExecExtend(c, s, op, now, evicted)
    case Prepend(_, _) => ExecExtend(c, s, op, now, evicted)
    case FlushAll => (s.(data := map[], order := map[], memoryUsed := 0), Flushed)
  }

  // ---------------------------------------------------------------- runs

  /** One completed call: what was asked, when, what it evicted, what it answered. */
  datatype Event = Event(op: Op, now: nat, evicted: seq<Key>, result: Result)

  function StateAfter(c: Config, h: seq<Event>): State
    decreases |h|
  {
    if h == [] then EMPTY
    else
      var e := h[|h| - 1];
      Exec(c, StateAfter(c, h[..|h| - 1]), e.op, e.now, e.evicted).0
  }

  /** A call and what came of it. */
  ghost predicate Happens(c: Config, s: State, e: Event) {
    Legal(c, s, e.op, e.now, e.evicted) && Exec(c, s, e.op, e.now, e.evicted).1 == e.result
  }

  /** An answered call. */
  ghost predicate ValidStep(c: Config, s: State, e: Event) {
    Happens(c, s, e) && !Overruns(c, s, e.op, e.now)
  }

  ghost predicate ValidRun(c: Config, h: seq<Event>)
    decreases |h|
  {
    h == [] || (ValidRun(c, h[..|h| - 1]) && ValidStep(c, StateAfter(c, h[..|h| - 1]), h[|h| - 1]))
  }

  lemma {:induction false} PrefixOfRun(c: Config, h: seq<Event>, i: nat)
    requires ValidRun(c, h)
    requires i <= |h|
    ensures ValidRun(c, h[..i])
    ensures i < |h| ==> ValidStep(c, StateAfter(c, h[..i]), h[i])
    decreases |h|
  {
    if i < |h| {
      PrefixOfRun(c, h[..|h| - 1], i);
      assert i < |h| - 1 ==> h[..|h| - 1][..i] == h[..i];
    } else {
      assert h[..i] == h;
    }
  }

  // ---------------------------------------------------------------- effect of removing several keys

  lemma {:induction false} RemoveAllEffect(c: Config, s: State, ks: seq<Key>)
    ensures var r := RemoveAll(c, s, ks);
            && r.casCounter == s.casCounter && r.accessCounter == s.accessCounter
            && (forall k :: k in r.data <==> k in s.data && k !in ks)
            && (forall k :: k in r.data ==> r.data[k] == s.data[k])
            && (forall k :: k in r.data && k in s.order ==> k in r.order && r.order[k] == s.order[k])
    decreases |ks|
  {
    if ks != [] {
      RemoveAllEffect(c, Remove(c, s, ks[0]), ks[1..]);
    }
  }

  lemma {:induction false} TouchAllEffect(s: State, ks: seq<Key>)
    ensures var r := TouchAll(s, ks);
            r.data == s.data && r.memoryUsed == s.memoryUsed && r.casCounter == s.casCounter
    decreases |ks|
  {
    if ks != [] {
      TouchAllEffect(Touch(s, ks[0]), ks[1..]);
    }
  }
}
