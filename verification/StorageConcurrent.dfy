/** The storage under k threads. A step is one atomic load, or one stretch under the data lock between
    two writes of the byte counter; every interleaving of such steps is a run. Operations other than cas. */
module StorageConcurrent {
  import opened Base
  import opened StorageSpec
  import opened StorageAccounting

  /** `need` bounds the bytes any one operation asks for. */
  datatype Params = Params(config: Config, threads: nat, need: nat)

  datatype Task =
    | Put(key: Key, item: Item)   // set, and add and replace after their check
    | Extend(op: Op)              // append and prepend

  /** Where a thread is. */
  datatype Pc =
    | Idle
    | Checking(task: Task)                // in ensure_memory_available, about to load the counter
    | Searching(task: Task)               // found it too full, about to look for a victim
    | Evicting(task: Task, victim: Key)   // about to delete the victim
    | Cleared(task: Task)                 // past eviction, not yet inserted
    | Storing(key: Key, item: Item)       // holds the write lock, old item subtracted, new one not yet added

  datatype Shared = Shared(data: map<Key, Item>, memoryUsed: int, writer: Option<nat>, pcs: seq<Pc>)

  datatype Action =
    | BeginPut(t: nat, key: Key, item: Item)
    | BeginExtend(t: nat, op: Op)                    // append or prepend found the counter too high
    | ExtendInPlace(t: nat, op: Op, token: int)      // append or prepend fits at once
    | Load(t: nat)
    | Search(t: nat, victim: Option<Key>)
    | Evict(t: nat)
    | Lock(t: nat)
    | Finish(t: nat)
    | FinishExtend(t: nat, alive: bool, token: int)  // `alive`: the second expiry check
    | Drop(t: nat, key: Key)                         // delete, and removal of an expired item by get, append or prepend
    | Flush(t: nat)

  // ---------------------------------------------------------------- steps

  ghost predicate IsExtend(op: Op) {
    op.Append? || op.Prepend?
  }

  function Need(c: Config, task: Task): nat {
    match task
    case Put(k, item) => Footprint(c, k, item)
    case Extend(op) => if op.Append? || op.Prepend? then |op.value| else 0
  }

  predicate Full(p: Params, s: Shared, need: nat) {
    Wrap(s.memoryUsed + need) > p.config.maxMemory
  }

  function Grown(item: Item, op: Op, token: int): Item
    requires op.Append? || op.Prepend?
  {
    item.(value := Extended(op, item.value), casUnique := token)
  }

  ghost predicate Enabled(p: Params, s: Shared, a: Action) {
    && a.t < |s.pcs|
    && var pc := s.pcs[a.t];
      match a
      case BeginPut(_, k, item) => pc.Idle? && Footprint(p.config, k, item) <= p.need
      case BeginExtend(_, op) =>
        pc.Idle? && s.writer.None? && IsExtend(op) && |op.value| <= p.need && op.key in s.data && Full(p, s, |op.value|)
      case ExtendInPlace(_, op, _) =>
        && pc.Idle? && s.writer.None? && IsExtend(op) && |op.value| <= p.need
        && op.key in s.data && !Full(p, s, |op.value|)
      case Load(_) => pc.Checking?
      case Search(_, victim) =>
        pc.Searching? && s.writer.None? && (if victim.Some? then victim.value in s.data else s.data == map[])
      case Evict(_) => pc.Evicting? && s.writer.None?
      case Lock(_) => pc.Cleared? && pc.task.Put? && s.writer.None?
      case Finish(_) => pc.Storing?
      case FinishExtend(_, _, _) => pc.Cleared? && pc.task.Extend? && s.writer.None?
      case Drop(_, _) => pc.Idle? && s.writer.None?
      case Flush(_) => pc.Idle? && s.writer.None?
  }

  function Goto(s: Shared, t: nat, pc: Pc): Shared
    requires t < |s.pcs|
  {
    s.(pcs := s.pcs[t := pc])
  }

  /** Remove a key under the lock and subtract its bytes. */
  function Dropped(c: Config, s: Shared, k: Key): Shared {
    if k in s.data then
      s.(data := s.data - {k}, memoryUsed := Wrap(s.memoryUsed - Footprint(c, k, s.data[k])))
    else s
  }

  function Extended'(s: Shared, op: Op, token: int): Shared
    requires op.Append? || op.Prepend?
    requires op.key in s.data
  {
    s.(data := s.data[op.key := Grown(s.data[op.key], op, token)], memoryUsed := Wrap(s.memoryUsed + |op.value|))
  }

  ghost function Step(p: Params, s: Shared, a: Action): Shared
    requires Enabled(p, s, a)
  {
    var pc := s.pcs[a.t];
    match a
    case BeginPut(t, k, item) => Goto(s, t, Checking(Put(k, item)))
    case BeginExtend(t, op) => Goto(s, t, Checking(Extend(op)))
    case ExtendInPlace(t, op, token) => Extended'(s, op, token)
    case Load(t) => Goto(s, t, if Full(p, s, Need(p.config, pc.task)) then Searching(pc.task) else Cleared(pc.task))
    case Search(t, victim) => Goto(s, t, if victim.Some? then Evicting(pc.task, victim.value) else Cleared(pc.task))
    case Evict(t) => Goto(Dropped(p.config, s, pc.victim), t, Checking(pc.task))
    case Lock(t) =>
      var k := pc.task.key;
      var m := if k in s.data then Wrap(s.memoryUsed - Footprint(p.config, k, s.data[k])) else s.memoryUsed;
      Goto(s, t, Storing(k, pc.task.item)).(memoryUsed := m, writer := Some(t))
    case Finish(t) =>
      Goto(s, t, Idle).(data := s.data[pc.key := pc.item],
                        memoryUsed := Wrap(s.memoryUsed + Footprint(p.config, pc.key, pc.item)),
                        writer := None)
    case FinishExtend(t, alive, token) =>
      var op := pc.task.op;
      if IsExtend(op) && op.key in s.data && alive then Goto(Extended'(s, op, token), t, Idle) else Goto(s, t, Idle)
    case Drop(t, k) => Dropped(p.config, s, k)
    case Flush(t) => s.(data := map[], memoryUsed := 0)
  }

  ghost predicate Initial(p: Params, s: Shared) {
    s.data == map[] && s.memoryUsed == 0 && s.writer.None? && |s.pcs| == p.threads
    && forall t :: 0 <= t < |s.pcs| ==> s.pcs[t].Idle?
  }

  /** A run: consecutive states, each reached from the one before by an enabled action. */
  ghost predicate Run(p: Params, states: seq<Shared>, actions: seq<Action>) {
    && |states| == |actions| + 1
    && Initial(p, states[0])
    && forall i :: 0 <= i < |actions| ==>
         Enabled(p, states[i], actions[i]) && states[i + 1] == Step(p, states[i], actions[i])
  }

  // ---------------------------------------------------------------- bytes promised but not yet counted

  function Promised(c: Config, pc: Pc): nat {
    match pc
    case Cleared(task) => Need(c, task)
    case Storing(k, item) => Footprint(c, k, item)
    case _ => 0
  }

  function Pending(c: Config, pcs: seq<Pc>): nat {
    if pcs == [] then 0 else Promised(c, pcs[0]) + Pending(c, pcs[1..])
  }

  lemma {:induction false} PendingUpdate(c: Config, pcs: seq<Pc>, t: nat, pc: Pc)
    requires t < |pcs|
    ensures Pending(c, pcs[t := pc]) == Pending(c, pcs) - Promised(c, pcs[t]) + Promised(c, pc)
    decreases |pcs|
  {
    if t == 0 {
      assert pcs[t := pc][1..] == pcs[1..];
    } else {
      assert pcs[t := pc][1..] == pcs[1..][t - 1 := pc];
      PendingUpdate(c, pcs[1..], t - 1, pc);
    }
  }

  lemma {:induction false} PendingAtMost(c: Config, pcs: seq<Pc>, n: nat)
    requires forall i :: 0 <= i < |pcs| ==> Promised(c, pcs[i]) <= n
    ensures Pending(c, pcs) <= |pcs| * n
    decreases |pcs|
  {
    if pcs != [] {
      PendingAtMost(c, pcs[1..], n);
      assert |pcs| * n == |pcs[1..]| * n + n;
    }
  }

  /** All other threads together have promised at most (k-1)*n bytes. */
  lemma {:induction false} PendingOfOthers(c: Config, pcs: seq<Pc>, t: nat, n: nat)
    requires t < |pcs|
    requires forall i :: 0 <= i < |pcs| ==> Promised(c, pcs[i]) <= n
    ensures Pending(c, pcs) - Promised(c, pcs[t]) <= (|pcs| - 1) * n
    decreases |pcs|
  {
    if t == 0 {
      PendingAtMost(c, pcs[1..], n);
    } else {
      PendingOfOthers(c, pcs[1..], t - 1, n);
      assert (|pcs| - 1) * n == (|pcs[1..]| - 1) * n + n;
    }
  }

  // ---------------------------------------------------------------- the invariant

  function Bound(p: Params): int {
    Max(p.config.maxMemory, p.need) + (p.threads - 1) * p.need
  }

  /** At least one thread, and the bound plus one more request fits a machine word. */
  predicate Fits(p: Params) {
    p.threads >= 1 && Bound(p) + p.need < U64
  }

  /** The counter is the bytes held, less the item a `set` under the lock has already subtracted. */
  ghost predicate Exact(p: Params, s: Shared) {
    s.memoryUsed == Total(p.config, s.data) - (
      if && s.writer.Some? && s.writer.value < |s.pcs| && s.pcs[s.writer.value].Storing?
         && s.pcs[s.writer.value].key in s.data
      then Footprint(p.config, s.pcs[s.writer.value].key, s.data[s.pcs[s.writer.value].key]) else 0)
  }

  /** The lock is held exactly by the thread in the middle of a store. */
  ghost predicate LockDiscipline(s: Shared) {
    && (s.writer.Some? ==> s.writer.value < |s.pcs| && s.pcs[s.writer.value].Storing?)
    && (forall t :: 0 <= t < |s.pcs| && s.pcs[t].Storing? ==> s.writer == Some(t))
  }

  ghost predicate TaskFits(p: Params, pc: Pc) {
    match pc
    case Idle => true
    case Storing(k, item) => Footprint(p.config, k, item) <= p.need
    case Checking(task) => Need(p.config, task) <= p.need && (task.Extend? ==> IsExtend(task.op))
    case Searching(task) => Need(p.config, task) <= p.need && (task.Extend? ==> IsExtend(task.op))
    case Evicting(task, _) => Need(p.config, task) <= p.need && (task.Extend? ==> IsExtend(task.op))
    case Cleared(task) => Need(p.config, task) <= p.need && (task.Extend? ==> IsExtend(task.op))
  }

  ghost predicate Inv(p: Params, s: Shared) {
    && |s.pcs| == p.threads
    && (forall t :: 0 <= t < |s.pcs| ==> TaskFits(p, s.pcs[t]))
    && LockDiscipline(s)
    && Exact(p, s)
    && s.memoryUsed + Pending(p.config, s.pcs) <= Bound(p)
  }

  lemma HeldAtMostTotal(c: Config, m: map<Key, Item>, k: Key)
    requires k in m
    ensures Footprint(c, k, m[k]) <= Total(c, m)
  {
    TotalRemove(c, m, k);
  }

  /** In a state satisfying the invariant the counter is a machine word. */
  lemma CounterInRange(p: Params, s: Shared)
    requires Fits(p) && Inv(p, s)
    ensures 0 <= s.memoryUsed <= Bound(p)
  {
    if s.writer.Some? && s.pcs[s.writer.value].key in s.data {
      HeldAtMostTotal(p.config, s.data, s.pcs[s.writer.value].key);
    }
  }

  lemma GotoKeeps(p: Params, s: Shared, t: nat, pc: Pc)
    requires t < |s.pcs| == p.threads && !pc.Storing? && TaskFits(p, pc)
    requires (forall i :: 0 <= i < |s.pcs| ==> TaskFits(p, s.pcs[i])) && LockDiscipline(s) && Exact(p, s)
    requires !s.pcs[t].Storing?
    requires s.memoryUsed + Pending(p.config, s.pcs) - Promised(p.config, s.pcs[t]) + Promised(p.config, pc) <= Bound(p)
    ensures Inv(p, Goto(s, t, pc))
  {
    PendingUpdate(p.config, s.pcs, t, pc);
  }

  lemma PromisedFits(p: Params, s: Shared)
    requires forall t :: 0 <= t < |s.pcs| ==> TaskFits(p, s.pcs[t])
    ensures forall t :: 0 <= t < |s.pcs| ==> Promised(p.config, s.pcs[t]) <= p.need
  {
    forall t | 0 <= t < |s.pcs|
      ensures Promised(p.config, s.pcs[t]) <= p.need
    {
      assert TaskFits(p, s.pcs[t]);
    }
  }

  /** A thread that saw room, or an empty map, may promise its bytes. */
  lemma ClearedKeeps(p: Params, s: Shared, t: nat, task: Task)
    requires Fits(p) && Inv(p, s)
    requires t < |s.pcs| && !s.pcs[t].Storing? && Promised(p.config, s.pcs[t]) == 0
    requires TaskFits(p, Cleared(task))
    requires s.memoryUsed + Need(p.config, task) <= Max(p.config.maxMemory, p.need)
    ensures Inv(p, Goto(s, t, Cleared(task)))
  {
    PromisedFits(p, s);
    PendingOfOthers(p.config, s.pcs, t, p.need);
    GotoKeeps(p, s, t, Cleared(task));
  }

  lemma DroppedKeeps(p: Params, s: Shared, k: Key)
    requires Fits(p) && Inv(p, s) && s.writer.None?
    ensures Inv(p, Dropped(p.config, s, k))
    ensures k in s.data ==> Footprint(p.config, k, s.data[k]) <= s.memoryUsed
  {
    if k in s.data {
      TotalRemove(p.config, s.data, k);
      CounterInRange(p, s);
    }
  }

  lemma ExtendedKeeps(p: Params, s: Shared, op: Op, token: int, t: nat)
    requires Fits(p) && Inv(p, s) && s.writer.None?
    requires IsExtend(op) && op.key in s.data && |op.value| <= p.need
    requires t < |s.pcs| && !s.pcs[t].Storing?
    requires s.memoryUsed + |op.value| + Pending(p.config, s.pcs) - Promised(p.config, s.pcs[t]) <= Bound(p)
    ensures Inv(p, Goto(Extended'(s, op, token), t, Idle))
  {
    hide Wrap, Bound;
    CounterInRange(p, s);
    WrapId(s.memoryUsed + |op.value|);
    TotalUpdate(p.config, s.data, op.key, Grown(s.data[op.key], op, token));
    PendingUpdate(p.config, s.pcs, t, Idle);
  }

  lemma InPlaceKeeps(p: Params, s: Shared, a: Action)
    requires Fits(p) && Inv(p, s) && Enabled(p, s, a) && a.ExtendInPlace?
    ensures Inv(p, Step(p, s, a))
  {
    CounterInRange(p, s);
    PromisedFits(p, s);
    PendingOfOthers(p.config, s.pcs, a.t, p.need);
    ExtendedKeeps(p, s, a.op, a.token, a.t);
    assert s.pcs[a.t := Idle] == s.pcs;
  }

  lemma LoadKeeps(p: Params, s: Shared, a: Action)
    requires Fits(p) && Inv(p, s) && Enabled(p, s, a) && a.Load?
    ensures Inv(p, Step(p, s, a))
  {
    var task := s.pcs[a.t].task;
    assert TaskFits(p, s.pcs[a.t]);
    CounterInRange(p, s);
    if Full(p, s, Need(p.config, task)) {
      GotoKeeps(p, s, a.t, Searching(task));
    } else {
      ClearedKeeps(p, s, a.t, task);
    }
  }

  lemma SearchKeeps(p: Params, s: Shared, a: Action)
    requires Fits(p) && Inv(p, s) && Enabled(p, s, a) && a.Search?
    ensures Inv(p, Step(p, s, a))
  {
    var task := s.pcs[a.t].task;
    assert TaskFits(p, s.pcs[a.t]);
    if a.victim.Some? {
      GotoKeeps(p, s, a.t, Evicting(task, a.victim.value));
    } else {
      ClearedKeeps(p, s, a.t, task);
    }
  }

  lemma LockKeeps(p: Params, s: Shared, a: Action)
    requires Fits(p) && Inv(p, s) && Enabled(p, s, a) && a.Lock?
    ensures Inv(p, Step(p, s, a))
    ensures var k := s.pcs[a.t].task.key; k in s.data ==> Footprint(p.config, k, s.data[k]) <= s.memoryUsed
  {
    hide Wrap, Bound;
    var task := s.pcs[a.t].task;
    assert TaskFits(p, s.pcs[a.t]);
    CounterInRange(p, s);
    PendingUpdate(p.config, s.pcs, a.t, Storing(task.key, task.item));
    if task.key in s.data {
      HeldAtMostTotal(p.config, s.data, task.key);
      WrapId(s.memoryUsed - Footprint(p.config, task.key, s.data[task.key]));
    }
  }

  lemma FinishKeeps(p: Params, s: Shared, a: Action)
    requires Fits(p) && Inv(p, s) && Enabled(p, s, a) && a.Finish?
    ensures Inv(p, Step(p, s, a))
  {
    hide Wrap, Bound;
    var pc := s.pcs[a.t];
    assert TaskFits(p, pc);
    CounterInRange(p, s);
    WrapId(s.memoryUsed + Footprint(p.config, pc.key, pc.item));
    PendingUpdate(p.config, s.pcs, a.t, Idle);
    TotalUpdate(p.config, s.data, pc.key, pc.item);
  }

  lemma FinishExtendKeeps(p: Params, s: Shared, a: Action)
    requires Fits(p) && Inv(p, s) && Enabled(p, s, a) && a.FinishExtend?
    ensures Inv(p, Step(p, s, a))
  {
    var op := s.pcs[a.t].task.op;
    assert TaskFits(p, s.pcs[a.t]);
    if op.key in s.data && a.alive {
      ExtendedKeeps(p, s, op, a.token, a.t);
    } else {
      GotoKeeps(p, s, a.t, Idle);
    }
  }

  /** Every step of every thread keeps the invariant. */
  lemma StepKeepsInv(p: Params, s: Shared, a: Action)
    requires Fits(p) && Inv(p, s) && Enabled(p, s, a)
    ensures Inv(p, Step(p, s, a))
  {
    hide Inv;
    match a
    case BeginPut(t, k, item) => BeginKeeps(p, s, t, Put(k, item));
    case BeginExtend(t, op) => BeginKeeps(p, s, t, Extend(op));
    case ExtendInPlace(_, _, _) => InPlaceKeeps(p, s, a);
    case Load(_) => LoadKeeps(p, s, a);
    case Search(_, _) => SearchKeeps(p, s, a);
    case Evict(t) => EvictKeeps(p, s, a);
    case Lock(_) => LockKeeps(p, s, a);
    case Finish(_) => FinishKeeps(p, s, a);
    case FinishExtend(_, _, _) => FinishExtendKeeps(p, s, a);
    case Drop(_, k) => DroppedKeeps(p, s, k);
    case Flush(_) => FlushKeeps(p, s, a);
  }

  lemma BeginKeeps(p: Params, s: Shared, t: nat, task: Task)
    requires Fits(p) && Inv(p, s) && t < |s.pcs| && s.pcs[t].Idle?
    requires TaskFits(p, Checking(task))
    ensures Inv(p, Goto(s, t, Checking(task)))
  {
    GotoKeeps(p, s, t, Checking(task));
  }

  lemma EvictKeeps(p: Params, s: Shared, a: Action)
    requires Fits(p) && Inv(p, s) && Enabled(p, s, a) && a.Evict?
    ensures Inv(p, Step(p, s, a))
  {
    DroppedKeeps(p, s, s.pcs[a.t].victim);
    var s1 := Dropped(p.config, s, s.pcs[a.t].victim);
    assert TaskFits(p, s1.pcs[a.t]);
    GotoKeeps(p, s1, a.t, Checking(s.pcs[a.t].task));
  }

  lemma FlushKeeps(p: Params, s: Shared, a: Action)
    requires Fits(p) && Inv(p, s) && Enabled(p, s, a) && a.Flush?
    ensures Inv(p, Step(p, s, a))
  {
    CounterInRange(p, s);
  }

  lemma {:induction false} PendingIdle(c: Config, pcs: seq<Pc>)
    requires forall t :: 0 <= t < |pcs| ==> pcs[t].Idle?
    ensures Pending(c, pcs) == 0
    decreases |pcs|
  {
    if pcs != [] {
      PendingIdle(c, pcs[1..]);
    }
  }

  lemma InitialInv(p: Params, s: Shared)
    requires Fits(p) && Initial(p, s)
    ensures Inv(p, s)
  {
    PendingIdle(p.config, s.pcs);
    assert (p.threads - 1) * p.need >= 0;
  }

  lemma {:induction false} RunInv(p: Params, states: seq<Shared>, actions: seq<Action>, i: nat)
    requires Fits(p) && Run(p, states, actions)
    requires i < |states|
    ensures Inv(p, states[i])
    decreases i
  {
    if i == 0 {
      InitialInv(p, states[0]);
    } else {
      RunInv(p, states, actions, i - 1);
      StepKeepsInv(p, states[i - 1], actions[i - 1]);
    }
  }

  // ---------------------------------------------------------------- results over whole runs

  /** Bounded overshoot: in every state of every run, the counter plus the bytes of all threads that are
      past eviction but not yet inserted stays within max(limit, N) + (k-1)*N. */
  lemma BoundedOvershoot(p: Params, states: seq<Shared>, actions: seq<Action>, i: nat)
    requires Fits(p) && Run(p, states, actions)
    requires i < |states|
    ensures 0 <= states[i].memoryUsed
    ensures states[i].memoryUsed + Pending(p.config, states[i].pcs)
            <= Max(p.config.maxMemory, p.need) + (p.threads - 1) * p.need
    ensures p.threads == 1 ==> states[i].memoryUsed <= Max(p.config.maxMemory, p.need)
  {
    RunInv(p, states, actions, i);
    CounterInRange(p, states[i]);
  }

  /** Exact accounting: whenever the data lock is free, the counter is the bytes held. */
  lemma ExactWhenUnlocked(p: Params, states: seq<Shared>, actions: seq<Action>, i: nat)
    requires Fits(p) && Run(p, states, actions)
    requires i < |states| && states[i].writer.None?
    ensures states[i].memoryUsed == Total(p.config, states[i].data)
  {
    RunInv(p, states, actions, i);
  }

  /** What a step subtracts from the counter. */
  ghost function Subtracted(p: Params, s: Shared, a: Action): nat
    requires Enabled(p, s, a)
  {
    var k := match a
      case Evict(_) => Some(s.pcs[a.t].victim)
      case Lock(_) => Some(s.pcs[a.t].task.key)
      case Drop(_, k) => Some(k)
      case _ => None;
    if k.Some? && k.value in s.data then Footprint(p.config, k.value, s.data[k.value]) else 0
  }

  /** No subtraction from the counter underflows. */
  lemma NoUnderflow(p: Params, states: seq<Shared>, actions: seq<Action>, i: nat)
    requires Fits(p) && Run(p, states, actions)
    requires i < |actions|
    ensures Subtracted(p, states[i], actions[i]) <= states[i].memoryUsed
  {
    RunInv(p, states, actions, i);
    var s, a := states[i], actions[i];
    match a
    case Evict(_) => DroppedKeeps(p, s, s.pcs[a.t].victim);
    case Lock(_) => LockKeeps(p, s, a);
    case Drop(_, k) => DroppedKeeps(p, s, k);
    case _ => CounterInRange(p, s);
  }

  // ---------------------------------------------------------------- the bound is attained

  ghost predicate Reachable(p: Params, s: Shared) {
    exists states, actions :: Run(p, states, actions) && states[|actions|] == s
  }

  lemma ReachStep(p: Params, s: Shared, a: Action)
    requires Reachable(p, s) && Enabled(p, s, a)
    ensures Reachable(p, Step(p, s, a))
  {
    hide Enabled, Step, Initial;
    var states, actions :| Run(p, states, actions) && states[|actions|] == s;
    var states', actions' := states + [Step(p, s, a)], actions + [a];
    assert Run(p, states', actions') && states'[|actions'|] == Step(p, s, a);
  }

  /** Keys of different lengths, and an item that takes `size` bytes with its key. */
  function KeyNo(i: nat): Key {
    seq(i + 1, _ => 7)
  }

  function Sized(p: Params, i: nat, size: nat): (r: Item)
    requires p.config.overhead + i + 1 <= size
    ensures Footprint(p.config, KeyNo(i), r) == size
  {
    Item(seq(size - p.config.overhead - i - 1, _ => 0), 0, None, 1)
  }

  /** The first `n` items, of `need` bytes each, are stored. */
  function Filled(p: Params, n: nat): (r: map<Key, Item>)
    requires p.config.overhead + n <= p.need
    ensures forall k :: k in r ==> |k| <= n
  {
    if n == 0 then map[] else Filled(p, n - 1)[KeyNo(n - 1) := Sized(p, n - 1, p.need)]
  }

  /** The limit, or one request if that is more, is room for `m` + 1 requests and less than one more; and requests are
      large compared to keys and overhead. */
  ghost predicate RoomFor(p: Params, m: nat) {
    && Fits(p) && 2 * (p.config.overhead + m + p.threads + 1) <= p.need
    && (m + 1) * p.need <= Max(p.config.maxMemory, p.need) < (m + 2) * p.need
  }

  /** The size of thread `j`'s item: `need`, and `last` for the last thread. */
  function SizeOf(p: Params, last: nat, j: nat): nat {
    if j == p.threads - 1 then last else p.need
  }

  /** Sizes that leave room for the longest key. */
  ghost predicate LastFits(p: Params, m: nat, last: nat) {
    && p.config.overhead + m + p.threads + 1 <= last <= p.need
    && p.config.overhead + m + p.threads + 1 <= p.need && p.threads >= 1
  }

  function TaskNo(p: Params, m: nat, last: nat, j: nat): Task
    requires LastFits(p, m, last) && j < p.threads
  {
    Put(KeyNo(m + j), Sized(p, m + j, SizeOf(p, last, j)))
  }

  /** The first `t` threads are past eviction with one item each. */
  ghost function Waiting(p: Params, m: nat, last: nat, t: nat): (r: seq<Pc>)
    requires LastFits(p, m, last)
    ensures |r| == p.threads
  {
    seq(p.threads, j requires 0 <= j < p.threads => if j < t then Cleared(TaskNo(p, m, last, j)) else Idle)
  }

  /** The first `t` threads have stored theirs, the others are past eviction. */
  ghost function Leaving(p: Params, m: nat, last: nat, t: nat): (r: seq<Pc>)
    requires LastFits(p, m, last)
    ensures |r| == p.threads
  {
    seq(p.threads, j requires 0 <= j < p.threads => if j < t then Idle else Cleared(TaskNo(p, m, last, j)))
  }

  /** `data` with the items of the first `t` threads. */
  ghost function Plus(p: Params, m: nat, last: nat, data: map<Key, Item>, t: nat): map<Key, Item>
    requires LastFits(p, m, last) && t <= p.threads
  {
    if t == 0 then data
    else Plus(p, m, last, data, t - 1)[KeyNo(m + t - 1) := Sized(p, m + t - 1, SizeOf(p, last, t - 1))]
  }

  function Sum(p: Params, last: nat, t: nat): nat {
    if t == 0 then 0 else Sum(p, last, t - 1) + SizeOf(p, last, t - 1)
  }

  lemma {:induction false} SumIs(p: Params, last: nat, t: nat)
    requires t <= p.threads
    ensures Sum(p, last, t) == if t == p.threads && t > 0 then (t - 1) * p.need + last else t * p.need
    decreases t
  {
    if t > 0 {
      SumIs(p, last, t - 1);
      Distribute(t - 1, 1, p.need);
    }
  }

  lemma Distribute(a: nat, b: nat, n: nat)
    ensures (a + b) * n == a * n + b * n && a * n >= 0 && b * n >= 0
  {
  }

  /** A thread that sees room, or an empty storage, gets past eviction. */
  lemma PastAlone(p: Params, s: Shared, t: nat, k: Key, item: Item)
    requires Reachable(p, s) && s.writer.None? && t < |s.pcs| && s.pcs[t].Idle?
    requires Footprint(p.config, k, item) <= p.need
    requires 0 <= s.memoryUsed && s.memoryUsed + Footprint(p.config, k, item) < U64
    requires s.memoryUsed + Footprint(p.config, k, item) <= p.config.maxMemory || s.data == map[]
    ensures Reachable(p, Goto(s, t, Cleared(Put(k, item))))
  {
    hide Wrap, Reachable, Footprint;
    var task, size := Put(k, item), Footprint(p.config, k, item);
    WrapId(s.memoryUsed + size);
    ReachStep(p, s, BeginPut(t, k, item));
    var s1 := Goto(s, t, Checking(task));
    ReachStep(p, s1, Load(t));
    if Full(p, s1, size) {
      var s2 := Goto(s1, t, Searching(task));
      ReachStep(p, s2, Search(t, None));
      assert s.pcs[t := Checking(task)][t := Searching(task)][t := Cleared(task)] == s.pcs[t := Cleared(task)];
    } else {
      assert s.pcs[t := Checking(task)][t := Cleared(task)] == s.pcs[t := Cleared(task)];
    }
  }

  /** And stores. */
  lemma StoresAlone(p: Params, s: Shared, t: nat, k: Key, item: Item)
    requires Reachable(p, s) && s.writer.None? && k !in s.data
    requires t < |s.pcs| && s.pcs[t] == Cleared(Put(k, item))
    requires 0 <= s.memoryUsed && s.memoryUsed + Footprint(p.config, k, item) < U64
    ensures Reachable(p, Shared(s.data[k := item], s.memoryUsed + Footprint(p.config, k, item), None, s.pcs[t := Idle]))
  {
    hide Wrap, Reachable, Footprint;
    WrapId(s.memoryUsed + Footprint(p.config, k, item));
    ReachStep(p, s, Lock(t));
    var s1 := Goto(s, t, Storing(k, item)).(writer := Some(t));
    ReachStep(p, s1, Finish(t));
    assert s1.pcs[t := Idle] == s.pcs[t := Idle];
  }

  lemma BothAlone(p: Params, s: Shared, t: nat, k: Key, item: Item)
    requires Reachable(p, s) && s.writer.None? && t < |s.pcs| && s.pcs[t].Idle? && k !in s.data
    requires Footprint(p.config, k, item) <= p.need
    requires 0 <= s.memoryUsed && s.memoryUsed + Footprint(p.config, k, item) < U64
    requires s.memoryUsed + Footprint(p.config, k, item) <= p.config.maxMemory || s.data == map[]
    ensures Reachable(p, s.(data := s.data[k := item], memoryUsed := s.memoryUsed + Footprint(p.config, k, item)))
  {
    hide Reachable, Footprint;
    PastAlone(p, s, t, k, item);
    var s1 := Goto(s, t, Cleared(Put(k, item)));
    StoresAlone(p, s1, t, k, item);
    assert s1.pcs[t := Idle] == s.pcs;
  }

  // ---------------------------------------------------------------- the run

  /** What the sizes come to. */
  lemma Multiples(p: Params, m: nat, i: nat)
    requires RoomFor(p, m) && i <= m
    ensures 0 <= i * p.need && (i + 1) * p.need == i * p.need + p.need <= Max(p.config.maxMemory, p.need)
    ensures (m + 2) * p.need == m * p.need + 2 * p.need
    ensures Bound(p) == Max(p.config.maxMemory, p.need) + (p.threads - 1) * p.need && Bound(p) + p.need < U64
    ensures (p.threads - 1) * p.need >= 0 && p.threads * p.need == (p.threads - 1) * p.need + p.need
  {
    Distribute(i, 1, p.need);
    Distribute(m, 2, p.need);
    Distribute(i + 1, m - i, p.need);
    Distribute(p.threads - 1, 1, p.need);
  }

  /** When the limit is below one request there is room only in an empty storage. */
  lemma RoomOrEmpty(p: Params, m: nat, i: nat)
    requires RoomFor(p, m) && i <= m
    ensures i * p.need + p.need <= p.config.maxMemory || i == 0
  {
    Multiples(p, m, i);
    if p.config.maxMemory < p.need {
      Distribute(m, 1, p.need);
      Distribute(i, m - i, p.need);
      if i > 0 {
        Distribute(1, i - 1, p.need);
      }
    }
  }

  lemma StartReachable(p: Params, pcs: seq<Pc>)
    requires |pcs| == p.threads && forall t :: 0 <= t < |pcs| ==> pcs[t].Idle?
    ensures Reachable(p, Shared(map[], 0, None, pcs))
  {
    var states, actions: seq<Action> := [Shared(map[], 0, None, pcs)], [];
    assert Run(p, states, actions) && states[|actions|] == Shared(map[], 0, None, pcs);
  }

  lemma {:induction false} FillsUp(p: Params, m: nat, n: nat)
    requires RoomFor(p, m) && n <= m
    ensures Reachable(p, Shared(Filled(p, n), n * p.need, None, Waiting(p, m, p.need, 0)))
    decreases n
  {
    hide Reachable, Footprint;
    var pcs := Waiting(p, m, p.need, 0);
    if n == 0 {
      StartReachable(p, pcs);
    } else {
      FillsUp(p, m, n - 1);
      Multiples(p, m, n - 1);
      RoomOrEmpty(p, m, n - 1);
      var s := Shared(Filled(p, n - 1), (n - 1) * p.need, None, pcs);
      var k, item := KeyNo(n - 1), Sized(p, n - 1, p.need);
      hide Bound, RoomFor, Max;
      BothAlone(p, s, 0, k, item);
    }
  }

  /** With `used` bytes stored in `data`, the first `t` threads get past eviction. */
  lemma {:induction false} AllPast(p: Params, m: nat, last: nat, data: map<Key, Item>, used: nat, t: nat)
    requires LastFits(p, m, last) && t <= p.threads && used + p.need < U64
    requires Reachable(p, Shared(data, used, None, Waiting(p, m, last, 0)))
    requires used + p.need <= p.config.maxMemory || data == map[]
    ensures Reachable(p, Shared(data, used, None, Waiting(p, m, last, t)))
    decreases t
  {
    if t > 0 {
      AllPast(p, m, last, data, used, t - 1);
      hide Reachable, Footprint;
      var s := Shared(data, used, None, Waiting(p, m, last, t - 1));
      PastAlone(p, s, t - 1, KeyNo(m + t - 1), Sized(p, m + t - 1, SizeOf(p, last, t - 1)));
      assert s.pcs[t - 1 := Cleared(TaskNo(p, m, last, t - 1))] == Waiting(p, m, last, t);
    }
  }

  /** No key of `data` is one of the threads'. */
  ghost predicate Others(p: Params, m: nat, data: map<Key, Item>) {
    forall k :: k in data ==> |k| <= m || |k| > m + p.threads
  }

  lemma {:induction false} PlusKeys(p: Params, m: nat, last: nat, data: map<Key, Item>, t: nat)
    requires LastFits(p, m, last) && t <= p.threads
    ensures forall k :: k in Plus(p, m, last, data, t) ==> k in data || m < |k| <= m + t
    decreases t
  {
    if t > 0 {
      PlusKeys(p, m, last, data, t - 1);
    }
  }

  lemma NextKeyNew(p: Params, m: nat, last: nat, data: map<Key, Item>, t: nat)
    requires LastFits(p, m, last) && t < p.threads && Others(p, m, data)
    ensures KeyNo(m + t) !in Plus(p, m, last, data, t)
  {
    PlusKeys(p, m, last, data, t);
    assert |KeyNo(m + t)| == m + t + 1;
  }

  lemma PlusNext(p: Params, m: nat, last: nat, data: map<Key, Item>, t: nat)
    requires LastFits(p, m, last) && t < p.threads
    ensures Plus(p, m, last, data, t + 1)
            == Plus(p, m, last, data, t)[KeyNo(m + t) := Sized(p, m + t, SizeOf(p, last, t))]
  {
  }

  lemma StoresNext(p: Params, m: nat, last: nat, data: map<Key, Item>, used: nat, t: nat)
    requires LastFits(p, m, last) && t < p.threads && used + SizeOf(p, last, t) < U64 && KeyNo(m + t) !in data
    requires Reachable(p, Shared(data, used, None, Leaving(p, m, last, t)))
    ensures Reachable(p, Shared(data[KeyNo(m + t) := Sized(p, m + t, SizeOf(p, last, t))],
                                used + SizeOf(p, last, t), None, Leaving(p, m, last, t + 1)))
  {
    hide Reachable, Footprint, KeyNo;
    var s, item := Shared(data, used, None, Leaving(p, m, last, t)), Sized(p, m + t, SizeOf(p, last, t));
    hide Sized, SizeOf;
    assert s.pcs[t] == Cleared(Put(KeyNo(m + t), item));
    StoresAlone(p, s, t, KeyNo(m + t), item);
    assert s.pcs[t := Idle] == Leaving(p, m, last, t + 1);
  }

  /** Once all threads are past eviction they all store. */
  lemma {:induction false} AllStore(p: Params, m: nat, last: nat, data: map<Key, Item>, used: nat, t: nat)
    requires LastFits(p, m, last) && t <= p.threads && used + Sum(p, last, t) < U64 && Others(p, m, data)
    requires Reachable(p, Shared(data, used, None, Waiting(p, m, last, p.threads)))
    ensures Reachable(p, Shared(Plus(p, m, last, data, t), used + Sum(p, last, t), None, Leaving(p, m, last, t)))
    decreases t
  {
    hide Reachable, Others;
    if t == 0 {
      assert Waiting(p, m, last, p.threads) == Leaving(p, m, last, 0);
    } else {
      hide Plus, Waiting, Leaving, Sized, LastFits, SizeOf;
      AllStore(p, m, last, data, used, t - 1);
      NextKeyNew(p, m, last, data, t - 1);
      PlusNext(p, m, last, data, t - 1);
      assert Sum(p, last, t) == Sum(p, last, t - 1) + SizeOf(p, last, t - 1);
      hide Sum, KeyNo;
      StoresNext(p, m, last, Plus(p, m, last, data, t - 1), used + Sum(p, last, t - 1), t - 1);
    }
  }

  lemma EvenSum(p: Params, m: nat)
    requires RoomFor(p, m) && Max(p.config.maxMemory, p.need) == (m + 1) * p.need
    ensures m * p.need + Sum(p, p.need, p.threads) == Bound(p) < U64
  {
    Multiples(p, m, m);
    SumIs(p, p.need, p.threads);
  }

  /** The limit is exactly `m` + 1 requests, or below one: all threads get past eviction at once. */
  lemma ReachesEven(p: Params, m: nat)
    requires RoomFor(p, m) && Max(p.config.maxMemory, p.need) == (m + 1) * p.need
    ensures exists s :: Reachable(p, s) && s.memoryUsed == Bound(p) && s.pcs == Leaving(p, m, p.need, p.threads)
  {
    var used := m * p.need;
    FillsUp(p, m, m);
    Multiples(p, m, m);
    RoomOrEmpty(p, m, m);
    AllPast(p, m, p.need, Filled(p, m), used, p.threads);
    assert Others(p, m, Filled(p, m));
    EvenSum(p, m);
    hide Reachable, Footprint, Filled, RoomFor, Bound;
    AllStore(p, m, p.need, Filled(p, m), used, p.threads);
  }

  /** How a remainder is split into a small item and the last thread's. */
  lemma Split(p: Params, m: nat) returns (small: nat, last: nat)
    requires RoomFor(p, m) && Max(p.config.maxMemory, p.need) > (m + 1) * p.need
    ensures LastFits(p, m, last) && p.config.overhead + m + p.threads + 1 <= small <= p.need
    ensures m * p.need + p.need <= p.config.maxMemory == m * p.need + small + last && 0 <= m * p.need
    ensures p.config.maxMemory + (p.threads - 1) * p.need == Bound(p) && Bound(p) + p.need < U64
    ensures (p.threads - 1) * p.need >= 0
  {
    Multiples(p, m, m);
    var rest := p.config.maxMemory - (m + 1) * p.need;
    small := Max(rest, p.config.overhead + m + p.threads + 1);
    last := p.need + rest - small;
  }

  /** In between: all threads but one get past eviction with `need` bytes; the last stores a small item and then gets
      past with what the limit still allows. */
  lemma ReachesBetween(p: Params, m: nat)
    requires RoomFor(p, m) && Max(p.config.maxMemory, p.need) > (m + 1) * p.need
    ensures exists s, last :: LastFits(p, m, last) && Reachable(p, s) && s.memoryUsed == Bound(p)
                              && s.pcs == Leaving(p, m, last, p.threads)
  {
    var small, last := Split(p, m);
    var used := m * p.need;
    FillsUp(p, m, m);
    assert Waiting(p, m, p.need, 0) == Waiting(p, m, last, 0);
    hide Reachable, RoomFor, Bound, Footprint;
    SumIs(p, last, p.threads);
    StoresBetween(p, m, Filled(p, m), used, small, last);
  }

  lemma StoresBetween(p: Params, m: nat, filled: map<Key, Item>, used: nat, small: nat, last: nat)
    requires LastFits(p, m, last) && p.config.overhead + m + p.threads + 1 <= small <= p.need
    requires used + p.need <= p.config.maxMemory == used + small + last && forall k :: k in filled ==> |k| <= m
    requires used + small + Sum(p, last, p.threads) < U64 && p.config.maxMemory + p.need < U64
    requires Reachable(p, Shared(filled, used, None, Waiting(p, m, last, 0)))
    ensures exists s :: Reachable(p, s) && s.memoryUsed == used + small + Sum(p, last, p.threads)
                        && s.pcs == Leaving(p, m, last, p.threads)
  {
    hide Reachable, Footprint, Sized, KeyNo;
    var k := p.threads - 1;
    AllPast(p, m, last, filled, used, k);
    var data := FillerStored(p, m, filled, used, small, last);
    var s := Shared(data, used + small, None, Waiting(p, m, last, k));
    PastAlone(p, s, k, KeyNo(m + k), Sized(p, m + k, last));
    assert s.pcs[k := Cleared(TaskNo(p, m, last, k))] == Waiting(p, m, last, p.threads);
    AllStore(p, m, last, data, used + small, p.threads);
  }

  lemma FillerStored(p: Params, m: nat, filled: map<Key, Item>, used: nat, small: nat, last: nat)
    returns (data: map<Key, Item>)
    requires LastFits(p, m, last) && p.config.overhead + m + p.threads + 1 <= small <= p.need
    requires used + p.need <= p.config.maxMemory && forall k :: k in filled ==> |k| <= m
    requires p.config.maxMemory + p.need < U64
    requires Reachable(p, Shared(filled, used, None, Waiting(p, m, last, p.threads - 1)))
    ensures Others(p, m, data)
    ensures Reachable(p, Shared(data, used + small, None, Waiting(p, m, last, p.threads - 1)))
  {
    var filler, item := KeyNo(m + p.threads), Sized(p, m + p.threads, small);
    hide Reachable, Footprint;
    BothAlone(p, Shared(filled, used, None, Waiting(p, m, last, p.threads - 1)), p.threads - 1, filler, item);
    data := filled[filler := item];
  }

  /** Every limit is room for some whole number of requests. */
  lemma EveryLimit(p: Params) returns (m: nat)
    requires p.need > 0
    ensures (m + 1) * p.need <= Max(p.config.maxMemory, p.need) < (m + 2) * p.need
  {
    var limit := Max(p.config.maxMemory, p.need);
    var q := limit / p.need;
    assert limit == p.need * q + limit % p.need;
    m := q - 1;
    Distribute(m + 1, 1, p.need);
  }

  /** The overshoot bound cannot be lowered: for every number of threads, every limit and every request size large
      compared to keys and overhead, some run ends with all threads idle and the counter at the bound. */
  lemma BoundAttained(p: Params, m: nat) returns (states: seq<Shared>, actions: seq<Action>)
    requires RoomFor(p, m)
    ensures Run(p, states, actions)
    ensures states[|actions|].memoryUsed == Bound(p)
    ensures forall t :: 0 <= t < |states[|actions|].pcs| ==> states[|actions|].pcs[t].Idle?
  {
    var s, last;
    if Max(p.config.maxMemory, p.need) == (m + 1) * p.need {
      ReachesEven(p, m);
      last := p.need;
      s :| Reachable(p, s) && s.memoryUsed == Bound(p) && s.pcs == Leaving(p, m, last, p.threads);
    } else {
      ReachesBetween(p, m);
      s, last :| LastFits(p, m, last) && Reachable(p, s) && s.memoryUsed == Bound(p)
                 && s.pcs == Leaving(p, m, last, p.threads);
    }
    hide Run, Bound;
    states, actions :| Run(p, states, actions) && states[|actions|] == s;
  }
}
