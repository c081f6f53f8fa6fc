/** What holds of an io_uring worker on every run, failed writes included: nothing outgrows its buffer, and the count
    of buffers accounted for is exactly the pool plus the failed writes so far. */
module UringBounds {
  import opened Base
  import opened Buffers
  import opened UringSpec
  import opened UringTokens
  import opened UringBuffers

  // ---------------------------------------------------------------- bounds

  /** A connection's indices lie in the pool and its counts in its buffers. */
  predicate ConnBounded(g: Config, conn: Conn) {
    && conn.accumulated <= g.bufferSize
    && (if conn.readBuf.Some? then conn.readBuf.value < g.poolSize else conn.accumulated == 0)
    && (conn.phase.Writing? ==>
          conn.phase.bufIdx < g.poolSize && conn.phase.written <= conn.phase.total <= g.bufferSize)
  }

  ghost predicate Bounded(g: Config, w: Worker) {
    && |w.bufs| == g.poolSize && SameSize(w.bufs, g.bufferSize)
    && (forall k :: 0 <= k < |w.free| ==> w.free[k] < g.poolSize)
    && (forall c :: c in w.conns ==> ConnBounded(g, w.conns[c]))
  }

  /** What a change may do and keep the bounds. */
  lemma BoundedAfter(g: Config, w: Worker, w': Worker, c: nat)
    requires Bounded(g, w)
    requires |w'.bufs| == g.poolSize && SameSize(w'.bufs, g.bufferSize)
    requires forall k :: 0 <= k < |w'.free| ==> w'.free[k] < g.poolSize
    requires forall d :: d in w'.conns && d != c ==> d in w.conns && w'.conns[d] == w.conns[d]
    requires c in w'.conns ==> ConnBounded(g, w'.conns[c])
    ensures Bounded(g, w')
  {
    hide ConnBounded;
  }

  lemma SetBufBounded(g: Config, w: Worker, i: nat, b: Bytes)
    requires Bounded(g, w) && |b| == g.bufferSize
    ensures Bounded(g, SetBuf(w, i, b)) && SetBuf(w, i, b).conns == w.conns && SetBuf(w, i, b).free == w.free
  {
  }

  lemma FreeBounded(g: Config, w: Worker, i: nat)
    requires Bounded(g, w) && i < g.poolSize
    ensures Bounded(g, FreeBuf(w, i))
  {
  }

  lemma CloseBounded(g: Config, w: Worker, c: nat)
    requires Bounded(g, w)
    ensures Bounded(g, Close(w, c))
  {
  }

  lemma PopBounded(g: Config, w: Worker)
    requires Bounded(g, w) && w.free != []
    ensures w.free[|w.free| - 1] < g.poolSize && Bounded(g, w.(free := w.free[..|w.free| - 1]))
  {
  }

  lemma BufSize(g: Config, w: Worker, i: nat)
    requires Bounded(g, w) && i < g.poolSize
    ensures |BufAt(w, i)| == g.bufferSize
  {
  }

  lemma OverwriteSize(buf: Bytes, off: nat, data: Bytes)
    ensures |Overwrite(buf, off, data)| == |buf|
  {
  }

  lemma AccumulatorBounded(g: Config, w: Worker, c: nat)
    requires Bounded(g, w) && c in w.conns
    ensures Bounded(g, Accumulator(w, c))
  {
    if w.conns[c].readBuf.None? && w.free != [] {
      PopBounded(g, w);
      BoundedAfter(g, w, Accumulator(w, c), c);
    }
  }

  lemma CopyInBounded(g: Config, w: Worker, c: nat, payload: Bytes)
    requires Bounded(g, w) && c in w.conns && c in w.traffic && w.conns[c].readBuf.Some?
    requires w.conns[c].accumulated + |payload| <= g.bufferSize
    ensures Bounded(g, CopyIn(w, c, payload))
  {
    hide Overwrite;
    var i := w.conns[c].readBuf.value;
    var b := Overwrite(BufAt(w, i), w.conns[c].accumulated, payload);
    assert ConnBounded(g, w.conns[c]);
    BufSize(g, w, i);
    OverwriteSize(BufAt(w, i), w.conns[c].accumulated, payload);
    SetBufBounded(g, w, i, b);
    BoundedAfter(g, w, CopyIn(w, c, payload), c);
  }

  lemma ConsumeBounded(g: Config, w: Worker, c: nat, consumed: nat, input: Bytes)
    requires Bounded(g, w) && c in w.conns && c in w.traffic && w.conns[c].readBuf.Some?
    ensures Bounded(g, Consume(w, c, consumed, input))
  {
    hide Overwrite, Slice;
    var i, total := w.conns[c].readBuf.value, w.conns[c].accumulated;
    var b := Overwrite(BufAt(w, i), 0, Slice(BufAt(w, i), consumed, total));
    assert ConnBounded(g, w.conns[c]);
    BufSize(g, w, i);
    OverwriteSize(BufAt(w, i), 0, Slice(BufAt(w, i), consumed, total));
    SetBufBounded(g, w, i, b);
    BoundedAfter(g, w, Consume(w, c, consumed, input), c);
  }

  lemma StartWritingBounded(g: Config, w: Worker, c: nat, i: nat, len: nat, response: Bytes, token: nat)
    requires Bounded(g, w) && c in w.conns && c in w.traffic && i < g.poolSize && len <= g.bufferSize
    ensures Bounded(g, StartWriting(w, c, i, len, response, token))
  {
    BoundedAfter(g, w, StartWriting(w, c, i, len, response, token), c);
  }

  lemma RespondBounded(g: Config, w: Worker, c: nat, outcome: Outcome, out: Bytes, token: nat)
    requires Bounded(g, w) && c in w.conns && c in w.traffic && w.conns[c].readBuf.Some?
    requires |out| == g.bufferSize && (outcome.Response? ==> outcome.len <= g.bufferSize)
    ensures Bounded(g, Respond(g, w, c, outcome, out, token))
  {
    hide Consume, StartWriting, Close, Held, BufAt, Slice, Overwrite;
    if w.free == [] {
      CloseBounded(g, w, c);
    } else {
      var i, input := w.free[|w.free| - 1], Held(w, w.conns[c]);
      PopBounded(g, w);
      SetBufBounded(g, w.(free := w.free[..|w.free| - 1]), i, out);
      var w1 := SetBuf(w, i, out).(free := w.free[..|w.free| - 1]);
      assert w1 == SetBuf(w.(free := w.free[..|w.free| - 1]), i, out);
      hide Bounded;
      FreeBounded(g, w1, i);
      CloseBounded(g, FreeBuf(w1, i), c);
      match outcome
      case NeedData => SubmitBounded(g, FreeBuf(w1, i), token, Read(c));
      case Response(consumed, len) =>
        ConsumeBounded(g, w1, c, consumed, input);
        ConsumeKeeps(w1, c, consumed, input);
        StartWritingBounded(g, Consume(w1, c, consumed, input), c, i, len, Slice(out, 0, len), token);
      case LargeResponse(consumed, data) =>
        ConsumeBounded(g, w1, c, consumed, input);
        ConsumeKeeps(w1, c, consumed, input);
        LargeBounded(g, Consume(w1, c, consumed, input), c, i, data, token);
      case _ =>
    }
  }

  lemma LargeBounded(g: Config, w: Worker, c: nat, i: nat, data: Bytes, token: nat)
    requires Bounded(g, w) && c in w.conns && c in w.traffic && i < g.poolSize
    ensures |data| <= g.bufferSize ==>
              Bounded(g, StartWriting(SetBuf(w, i, Overwrite(BufAt(w, i), 0, data)), c, i, |data|, data, token))
    ensures Bounded(g, Close(FreeBuf(w, i), c))
  {
    hide Overwrite, Close, StartWriting;
    BufSize(g, w, i);
    OverwriteSize(BufAt(w, i), 0, data);
    SetBufBounded(g, w, i, Overwrite(BufAt(w, i), 0, data));
    if |data| <= g.bufferSize {
      StartWritingBounded(g, SetBuf(w, i, Overwrite(BufAt(w, i), 0, data)), c, i, |data|, data, token);
    }
    FreeBounded(g, w, i);
    CloseBounded(g, FreeBuf(w, i), c);
  }

  lemma SubmitBounded(g: Config, w: Worker, token: nat, op: OpType)
    requires Bounded(g, w)
    ensures Bounded(g, Submit(w, token, op))
  {
  }

  lemma ReadBounded(g: Config, w: Worker, c: nat, e: Event)
    requires Bounded(g, w) && e.Complete? && |e.out| == g.bufferSize
    requires e.outcome.Response? ==> e.outcome.len <= g.bufferSize
    ensures Bounded(g, HandleRead(g, w, c, e))
  {
    hide Respond, Close, CopyIn, Accumulator;
    var w0 := if e.bid.Some? then Recycle(w, e.bid.value) else w;
    assert Bounded(g, w0);
    hide Bounded;
    CloseBounded(g, w0, c);
    if e.result > 0 && e.bid.Some? && c in w.conns && c in w.traffic {
      var w1 := Accumulator(w0, c);
      AccumulatorFacts(w0, c);
      AccumulatorBounded(g, w0, c);
      CloseBounded(g, w1, c);
      if w1.conns[c].readBuf.Some? && w1.conns[c].accumulated + |e.payload| <= g.bufferSize {
        CopyInBounded(g, w1, c, e.payload);
        CopyInFacts(w1, c, e.payload);
        RespondBounded(g, CopyIn(w1, c, e.payload), c, e.outcome, e.out, e.keys.token);
      }
    }
  }

  lemma AccumulatorFacts(w: Worker, c: nat)
    requires c in w.conns
    ensures var w' := Accumulator(w, c);
            && c in w'.conns && w'.traffic == w.traffic && w'.conns[c].phase == w.conns[c].phase
            && w'.conns == w.conns[c := w'.conns[c]]
  {
    assert w.conns == w.conns[c := w.conns[c]];
  }

  lemma CopyInFacts(w: Worker, c: nat, payload: Bytes)
    requires c in w.conns && w.conns[c].readBuf.Some? && c in w.traffic
    ensures var w' := CopyIn(w, c, payload);
            && c in w'.conns && c in w'.traffic && w'.free == w.free && w'.conns == w.conns[c := w'.conns[c]]
            && w'.conns[c].readBuf == w.conns[c].readBuf && w'.conns[c].phase == w.conns[c].phase
  {
  }

  lemma WriteBounded(g: Config, w: Worker, c: nat, i: nat, result: int, token: nat)
    requires Bounded(g, w) && i < g.poolSize
    requires c in w.conns && w.conns[c].phase.Writing? ==> result <= w.conns[c].phase.total - w.conns[c].phase.written
    ensures Bounded(g, HandleWrite(w, c, i, result, token))
  {
    hide Close, Slice, BufAt;
    FreeBounded(g, w, i);
    CloseBounded(g, FreeBuf(w, i), c);
    if result > 0 && c in w.conns && c in w.traffic && w.conns[c].phase.Writing? {
      assert ConnBounded(g, w.conns[c]);
      BoundedAfter(g, w, HandleWrite(w, c, i, result, token), c);
    }
  }

  lemma AcceptBounded(g: Config, w: Worker, result: int, keys: SlabKeys)
    requires Bounded(g, w)
    ensures Bounded(g, HandleAccept(g, w, result, keys))
  {
    BoundedAfter(g, w, HandleAccept(g, w, result, keys), keys.connId);
  }

  /** Every step keeps the bounds, failed writes included. */
  lemma StepKeepsBounds(g: Config, w: Worker, e: Event)
    requires Bounded(g, w) && TokenInv(w) && Legal(g, w, e)
    ensures Bounded(g, Step(g, w, e))
  {
    hide HandleAccept, HandleRead, HandleWrite, TokenInv;
    if e.Complete? {
      CompletionFindsItsConnection(g, w, e);
      var w1 := w.(inflight := w.inflight - {e.token}, tokens := w.tokens - {e.token});
      assert Bounded(g, w1);
      match w.tokens[e.token]
      case Accept => AcceptBounded(g, w1, e.result, e.keys);
      case Read(c) => ReadBounded(g, w1, c, e);
      case Write(c, i) =>
        assert ConnBounded(g, w.conns[c]);
        WriteBounded(g, w1, c, i, e.result, e.keys.token);
    }
  }

  lemma InitialBounds(g: Config, w: Worker)
    requires Initial(g, w)
    ensures Bounded(g, w)
  {
  }

  lemma {:induction false} RunBounds(g: Config, ws: seq<Worker>, es: seq<Event>, n: nat)
    requires Run(g, ws, es) && n < |ws|
    ensures Bounded(g, ws[n])
    decreases n
  {
    if n == 0 {
      InitialBounds(g, ws[0]);
    } else {
      hide Bounded;
      RunBounds(g, ws, es, n - 1);
      RunTokens(g, ws, es, n - 1);
      StepKeepsBounds(g, ws[n - 1], es[n - 1]);
    }
  }

  /** On every run, for every connection: what is accumulated fits its buffer and lies in the pool, and so does the
      response being sent. */
  lemma AccumulationBounded(g: Config, ws: seq<Worker>, es: seq<Event>, n: nat, c: nat)
    requires Run(g, ws, es) && n < |ws| && c in ws[n].conns
    ensures var conn := ws[n].conns[c];
            && conn.accumulated <= g.bufferSize && |Held(ws[n], conn)| == conn.accumulated
            && (conn.readBuf.Some? ==> conn.readBuf.value < g.poolSize)
            && (conn.phase.Writing? ==>
                  conn.phase.bufIdx < g.poolSize && conn.phase.written <= conn.phase.total <= g.bufferSize)
  {
    RunBounds(g, ws, es, n);
    assert ConnBounded(g, ws[n].conns[c]);
  }

  // ---------------------------------------------------------------- the count

  /** The connections with an accumulation buffer, and those with a write buffer. */
  function Accumulating(conns: map<nat, Conn>): set<nat> {
    set c | c in conns && conns[c].readBuf.Some?
  }

  function Sending(conns: map<nat, Conn>): set<nat> {
    set c | c in conns && conns[c].phase.Writing?
  }

  /** Buffers accounted for: free, accumulating, being written. */
  function Population(w: Worker): nat {
    |w.free| + |Accumulating(w.conns)| + |Sending(w.conns)|
  }

  function InUse(conns: map<nat, Conn>): nat {
    |Accumulating(conns)| + |Sending(conns)|
  }

  function Holding(conn: Conn): nat {
    (if conn.readBuf.Some? then 1 else 0) + (if conn.phase.Writing? then 1 else 0)
  }

  lemma InUseSplit(conns: map<nat, Conn>, c: nat)
    requires c in conns
    ensures InUse(conns) == InUse(conns - {c}) + Holding(conns[c])
  {
    assert Accumulating(conns) - {c} == Accumulating(conns - {c});
    assert Sending(conns) - {c} == Sending(conns - {c});
  }

  lemma InUseUpdate(conns: map<nat, Conn>, c: nat, conn: Conn)
    ensures InUse(conns[c := conn]) == InUse(conns - {c}) + Holding(conn)
  {
    InUseSplit(conns[c := conn], c);
    assert conns[c := conn] - {c} == conns - {c};
  }

  /** A connection that holds as many buffers as before leaves the count alone. */
  lemma SameHolding(conns: map<nat, Conn>, conns': map<nat, Conn>, c: nat)
    requires c in conns && c in conns' && conns' == conns[c := conns'[c]]
    ensures InUse(conns') == InUse(conns) - Holding(conns[c]) + Holding(conns'[c])
  {
    InUseSplit(conns, c);
    InUseUpdate(conns, c, conns'[c]);
  }

  lemma ClosePopulation(w: Worker, c: nat)
    ensures Population(Close(w, c)) == Population(w)
  {
    hide Accumulating, Sending;
    if c in w.conns {
      InUseSplit(w.conns, c);
    }
  }

  lemma AccumulatorPopulation(w: Worker, c: nat)
    requires c in w.conns
    ensures Population(Accumulator(w, c)) == Population(w)
  {
    hide Accumulating, Sending;
    if w.conns[c].readBuf.None? && w.free != [] {
      SameHolding(w.conns, Accumulator(w, c).conns, c);
    }
  }

  lemma RespondPopulation(g: Config, w: Worker, c: nat, outcome: Outcome, out: Bytes, token: nat)
    requires c in w.conns && c in w.traffic && w.conns[c].readBuf.Some? && w.conns[c].phase.Reading?
    ensures Population(Respond(g, w, c, outcome, out, token)) == Population(w)
  {
    hide Consume, StartWriting, Close, Held, BufAt, Slice, Overwrite, Accumulating, Sending;
    if w.free == [] {
      ClosePopulation(w, c);
    } else {
      var i, input := w.free[|w.free| - 1], Held(w, w.conns[c]);
      var w1 := SetBuf(w, i, out).(free := w.free[..|w.free| - 1]);
      ClosePopulation(FreeBuf(w1, i), c);
      match outcome
      case Response(consumed, len) =>
        ConsumedPopulation(w1, c, consumed, input);
        StartPopulation(Consume(w1, c, consumed, input), c, i, len, Slice(out, 0, len), token);
      case LargeResponse(consumed, data) =>
        ConsumedPopulation(w1, c, consumed, input);
        var w2 := Consume(w1, c, consumed, input);
        ClosePopulation(FreeBuf(w2, i), c);
        StartPopulation(SetBuf(w2, i, Overwrite(BufAt(w2, i), 0, data)), c, i, |data|, data, token);
      case _ =>
    }
  }

  lemma ConsumedPopulation(w: Worker, c: nat, consumed: nat, input: Bytes)
    requires c in w.conns && c in w.traffic && w.conns[c].readBuf.Some?
    ensures var w' := Consume(w, c, consumed, input);
            && Population(w') == Population(w) && w'.free == w.free
            && c in w'.conns && c in w'.traffic && w'.conns[c].phase == w.conns[c].phase
  {
    ConsumeKeeps(w, c, consumed, input);
    hide Consume, Accumulating, Sending;
    SameHolding(w.conns, Consume(w, c, consumed, input).conns, c);
  }

  lemma StartPopulation(w: Worker, c: nat, i: nat, len: nat, response: Bytes, token: nat)
    requires c in w.conns && c in w.traffic && w.conns[c].phase.Reading?
    ensures Population(StartWriting(w, c, i, len, response, token)) == Population(w) + 1
  {
    hide Accumulating, Sending;
    SameHolding(w.conns, StartWriting(w, c, i, len, response, token).conns, c);
  }

  lemma ReadPopulation(g: Config, w: Worker, c: nat, e: Event)
    requires e.Complete? && (c in w.conns ==> w.conns[c].phase.Reading?)
    ensures Population(HandleRead(g, w, c, e)) == Population(w)
  {
    hide Respond, Close, CopyIn, Accumulator, Accumulating, Sending;
    var w0 := if e.bid.Some? then Recycle(w, e.bid.value) else w;
    ClosePopulation(w0, c);
    if e.result > 0 && e.bid.Some? && c in w.conns && c in w.traffic {
      var w1 := Accumulator(w0, c);
      AccumulatorFacts(w0, c);
      AccumulatorPopulation(w0, c);
      ClosePopulation(w1, c);
      if w1.conns[c].readBuf.Some? && w1.conns[c].accumulated + |e.payload| <= g.bufferSize {
        var w2 := CopyIn(w1, c, e.payload);
        CopyInFacts(w1, c, e.payload);
        SameHolding(w1.conns, w2.conns, c);
        RespondPopulation(g, w2, c, e.outcome, e.out, e.keys.token);
      }
    }
  }

  lemma WritePopulation(w: Worker, c: nat, i: nat, result: int, token: nat)
    requires c in w.conns && c in w.traffic && w.conns[c].phase.Writing?
    ensures Population(HandleWrite(w, c, i, result, token)) == Population(w) + (if result <= 0 then 1 else 0)
  {
    hide Close, Slice, BufAt, Accumulating, Sending;
    if result <= 0 {
      ClosePopulation(FreeBuf(w, i), c);
    } else {
      SameHolding(w.conns, HandleWrite(w, c, i, result, token).conns, c);
    }
  }

  lemma AcceptPopulation(g: Config, w: Worker, result: int, keys: SlabKeys)
    requires keys.connId !in w.conns
    ensures Population(HandleAccept(g, w, result, keys)) == Population(w)
  {
    hide Accumulating, Sending;
    assert w.conns - {keys.connId} == w.conns;
    InUseUpdate(w.conns, keys.connId, NEW_CONN);
  }

  /** A step adds one to the count when it is a failed write and leaves it alone otherwise. */
  lemma StepPopulation(g: Config, w: Worker, e: Event)
    requires TokenInv(w) && Legal(g, w, e)
    ensures Population(Step(g, w, e)) == Population(w) + (if FailedWrite(w, e) then 1 else 0)
  {
    hide HandleAccept, HandleRead, HandleWrite, TokenInv, Accumulating, Sending;
    if e.Complete? {
      CompletionFindsItsConnection(g, w, e);
      var w1 := w.(inflight := w.inflight - {e.token}, tokens := w.tokens - {e.token});
      match w.tokens[e.token]
      case Accept => AcceptPopulation(g, w1, e.result, e.keys);
      case Read(c) => ReadPopulation(g, w1, c, e);
      case Write(c, i) => WritePopulation(w1, c, i, e.result, e.keys.token);
    }
  }

  /** Failed writes among the first `n` events. */
  function FailedWrites(ws: seq<Worker>, es: seq<Event>, n: nat): nat
    requires n <= |es| && n < |ws|
  {
    if n == 0 then 0 else FailedWrites(ws, es, n - 1) + (if FailedWrite(ws[n - 1], es[n - 1]) then 1 else 0)
  }

  /** On every run: free buffers, accumulation buffers and write buffers together are the pool plus one for every
      failed write so far. */
  lemma {:induction false} PopulationLaw(g: Config, ws: seq<Worker>, es: seq<Event>, n: nat)
    requires Run(g, ws, es) && n < |ws|
    ensures |ws[n].free| + |Accumulating(ws[n].conns)| + |Sending(ws[n].conns)|
            == g.poolSize + FailedWrites(ws, es, n)
    decreases n
  {
    if n > 0 {
      hide TokenInv, Accumulating, Sending, FailedWrite;
      PopulationLaw(g, ws, es, n - 1);
      RunTokens(g, ws, es, n - 1);
      StepPopulation(g, ws[n - 1], es[n - 1]);
    }
  }

  // ---------------------------------------------------------------- partition and count

  lemma {:induction false} DistinctSize(s: seq<nat>, t: set<nat>)
    requires Distinct(s) && forall x :: x in t <==> x in s
    ensures |t| == |s|
    decreases |s|
  {
    if s == [] {
      assert t == {};
    } else {
      var init, last := s[..|s| - 1], s[|s| - 1];
      assert s == init + [last];
      DistinctSize(init, t - {last});
    }
  }

  /** Keys with different values are as many as the values. */
  lemma {:induction false} InjectiveSize(m: map<nat, nat>, values: set<nat>)
    requires forall a, b :: a in m && b in m && a != b ==> m[a] != m[b]
    requires forall a :: a in m ==> m[a] in values
    requires forall i :: i in values ==> exists a :: a in m && m[a] == i
    ensures |values| == |m.Keys|
    decreases |m|
  {
    if m == map[] {
      assert values == {};
    } else {
      var a :| a in m;
      var rest := m - {a};
      forall i | i in values - {m[a]}
        ensures exists b :: b in rest && rest[b] == i
      {
        var b :| b in m && m[b] == i;
        assert b in rest;
      }
      InjectiveSize(rest, values - {m[a]});
      assert m.Keys == rest.Keys + {a};
    }
  }

  function Below(n: nat): (r: set<nat>)
    ensures |r| == n && forall i: nat :: i in r <==> i < n
  {
    if n == 0 then {} else Below(n - 1) + {n - 1}
  }

  /** The indices accumulated into, and those being written out. */
  function AccumIndices(conns: map<nat, Conn>): set<nat> {
    set c | c in Accumulating(conns) :: conns[c].readBuf.value
  }

  function OutIndices(conns: map<nat, Conn>): set<nat> {
    set c | c in Sending(conns) :: conns[c].phase.bufIdx
  }

  lemma AccumSize(g: Config, w: Worker)
    requires Partitioned(g, w)
    ensures |AccumIndices(w.conns)| == |Accumulating(w.conns)|
  {
    var m := map c | c in Accumulating(w.conns) :: w.conns[c].readBuf.value;
    assert m.Keys == Accumulating(w.conns);
    assert forall c :: c in m ==> Uses(w, c, m[c]);
    InjectiveSize(m, AccumIndices(w.conns));
  }

  lemma OutSize(g: Config, w: Worker)
    requires Partitioned(g, w)
    ensures |OutIndices(w.conns)| == |Sending(w.conns)|
  {
    var m := map c | c in Sending(w.conns) :: w.conns[c].phase.bufIdx;
    assert m.Keys == Sending(w.conns);
    assert forall c :: c in m ==> Uses(w, c, m[c]);
    InjectiveSize(m, OutIndices(w.conns));
  }

  lemma UserOf(w: Worker, i: nat)
    ensures i in AccumIndices(w.conns) ==> exists c: nat :: Uses(w, c, i) && w.conns[c].readBuf == Some(i)
    ensures i in OutIndices(w.conns) ==>
              exists c: nat :: Uses(w, c, i) && w.conns[c].phase.Writing? && w.conns[c].phase.bufIdx == i
    ensures (exists c: nat :: Uses(w, c, i)) ==> i in AccumIndices(w.conns) || i in OutIndices(w.conns)
  {
    if c :| c in Accumulating(w.conns) && w.conns[c].readBuf.value == i {
      assert Uses(w, c, i);
    }
    if c :| c in Sending(w.conns) && w.conns[c].phase.bufIdx == i {
      assert Uses(w, c, i);
    }
  }

  lemma NoOverlap(g: Config, w: Worker, i: nat)
    requires Partitioned(g, w)
    ensures !(i in AccumIndices(w.conns) && i in OutIndices(w.conns))
    ensures i in AccumIndices(w.conns) || i in OutIndices(w.conns) ==> i !in w.free && i < g.poolSize
    ensures i < g.poolSize && i !in w.free ==> i in AccumIndices(w.conns) || i in OutIndices(w.conns)
  {
    UserOf(w, i);
    hide AccumIndices, OutIndices;
  }

  /** A partitioned pool has exactly its own size in buffers. */
  lemma PartitionedPopulation(g: Config, w: Worker)
    requires Partitioned(g, w)
    ensures Population(w) == g.poolSize
  {
    var f := set i | i in w.free;
    var a, o := AccumIndices(w.conns), OutIndices(w.conns);
    DistinctSize(w.free, f);
    AccumSize(g, w);
    OutSize(g, w);
    forall i: nat
      ensures i in a ==> i !in o
      ensures i in a || i in o ==> i !in f && i < g.poolSize
      ensures i < g.poolSize && i !in f ==> i in a || i in o
    {
      NoOverlap(g, w, i);
    }
    FreeInPool(g, w);
    hide Partitioned, AccumIndices, OutIndices, Accumulating, Sending;
    ThreeParts(g.poolSize, f, a, o);
  }

  lemma ThreeParts(n: nat, f: set<nat>, a: set<nat>, o: set<nat>)
    requires forall i :: i in f ==> i < n
    requires forall i :: i in a ==> i !in o
    requires forall i :: i in a || i in o ==> i !in f && i < n
    requires forall i: nat :: i < n && i !in f ==> i in a || i in o
    ensures |f| + |a| + |o| == n
  {
    assert f !! a && (f + a) !! o;
    assert Below(n) == f + a + o;
  }

  lemma FreeInPool(g: Config, w: Worker)
    requires Partitioned(g, w)
    ensures forall i :: i in w.free ==> i < g.poolSize
  {
  }

  lemma {:induction false} NoFailedWrites(ws: seq<Worker>, es: seq<Event>, n: nat)
    requires n <= |es| && n < |ws|
    ensures FailedWrites(ws, es, n) == 0 <==> forall j :: 0 <= j < n ==> !FailedWrite(ws[j], es[j])
    decreases n
  {
    if n > 0 {
      hide FailedWrite;
      NoFailedWrites(ws, es, n - 1);
    }
  }

  /** On every run, at every point: the free list, the accumulation buffers and the write buffers partition the pool
      if and only if no write has failed so far. */
  lemma PartitionIff(g: Config, ws: seq<Worker>, es: seq<Event>, n: nat)
    requires Run(g, ws, es) && n < |ws|
    ensures Partitioned(g, ws[n]) <==> forall j :: 0 <= j < n ==> !FailedWrite(ws[j], es[j])
  {
    hide Partitioned, FailedWrite, Run, Accumulating, Sending;
    assert |ws| == |es| + 1 by {
      RunLength(g, ws, es);
    }
    NoFailedWrites(ws, es, n);
    if Partitioned(g, ws[n]) {
      PartitionedPopulation(g, ws[n]);
      PopulationLaw(g, ws, es, n);
    } else if FailedWrites(ws, es, n) == 0 {
      PoolPartition(g, ws, es, n);
    }
  }

  lemma RunLength(g: Config, ws: seq<Worker>, es: seq<Event>)
    requires Run(g, ws, es)
    ensures |ws| == |es| + 1
  {
  }
}
