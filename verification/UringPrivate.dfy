/** Input and output of a single connection, on every run: they add up for as long as its buffers are its own, whatever
    failed writes did to other connections. */
module UringPrivate {
  import opened Base
  import opened UringSpec
  import opened UringTokens
  import opened UringBuffers
  import opened UringBounds

  /** The buffers a connection uses. */
  function Mine(conn: Conn): set<nat> {
    (if conn.readBuf.Some? then {conn.readBuf.value} else {})
    + (if conn.phase.Writing? then {conn.phase.bufIdx} else {})
  }

  /** None of the connection's buffers is on the free list, used by another connection, or used twice. */
  ghost predicate Private(w: Worker, c: nat)
    requires c in w.conns
  {
    var conn := w.conns[c];
    && (forall i :: i in Mine(conn) ==> i !in w.free)
    && (forall d, i :: d in w.conns && d != c && i in Mine(conn) ==> i !in Mine(w.conns[d]))
    && (conn.readBuf.Some? && conn.phase.Writing? ==> conn.readBuf.value != conn.phase.bufIdx)
  }

  // ---------------------------------------------------------------- events of other connections

  /** Connection `c` and its traffic are as they were. */
  predicate SameConn(w: Worker, w': Worker, c: nat) {
    && (c in w.conns ==> c in w'.conns && w'.conns[c] == w.conns[c])
    && (c in w.traffic ==> c in w'.traffic && w'.traffic[c] == w.traffic[c])
  }

  lemma CloseElsewhere(w: Worker, d: nat, c: nat)
    requires d != c
    ensures SameConn(w, Close(w, d), c) && Close(w, d).bufs == w.bufs
  {
  }

  lemma ConsumeElsewhereConn(w: Worker, d: nat, consumed: nat, input: Bytes, c: nat)
    requires d in w.conns && d in w.traffic && w.conns[d].readBuf.Some? && d != c
    ensures SameConn(w, Consume(w, d, consumed, input), c)
  {
  }

  lemma StartWritingElsewhere(w: Worker, d: nat, i: nat, len: nat, response: Bytes, token: nat, c: nat)
    requires d in w.conns && d in w.traffic && d != c
    ensures var w' := StartWriting(w, d, i, len, response, token); SameConn(w, w', c) && w'.bufs == w.bufs
  {
  }

  lemma SetBufElsewhere(w: Worker, j: nat, b: Bytes, i: nat)
    requires i != j
    ensures BufAt(SetBuf(w, j, b), i) == BufAt(w, i)
  {
  }

  lemma RespondElsewhere(g: Config, w: Worker, d: nat, outcome: Outcome, out: Bytes, token: nat, c: nat, i: nat)
    requires d in w.conns && d in w.traffic && w.conns[d].readBuf.Some? && d != c
    ensures var w' := Respond(g, w, d, outcome, out, token);
            && SameConn(w, w', c)
            && (i !in w.free && w.conns[d].readBuf != Some(i) ==> BufAt(w', i) == BufAt(w, i))
  {
    hide Consume, StartWriting, Close, Held, Slice, Overwrite;
    if w.free == [] {
      CloseElsewhere(w, d, c);
    } else {
      var j, input := w.free[|w.free| - 1], Held(w, w.conns[d]);
      var w1 := SetBuf(w, j, out).(free := w.free[..|w.free| - 1]);
      assert j in w.free;
      CloseElsewhere(FreeBuf(w1, j), d, c);
      match outcome
      case Response(consumed, len) =>
        ConsumeKeeps(w1, d, consumed, input);
        ConsumeElsewhereConn(w1, d, consumed, input, c);
        var w2 := Consume(w1, d, consumed, input);
        if w.conns[d].readBuf != Some(i) {
          ConsumeElsewhere(w1, d, consumed, input, i);
        }
        StartWritingElsewhere(w2, d, j, len, Slice(out, 0, len), token, c);
      case LargeResponse(consumed, data) =>
        ConsumeKeeps(w1, d, consumed, input);
        ConsumeElsewhereConn(w1, d, consumed, input, c);
        var w2 := Consume(w1, d, consumed, input);
        if w.conns[d].readBuf != Some(i) {
          ConsumeElsewhere(w1, d, consumed, input, i);
        }
        CloseElsewhere(FreeBuf(w2, j), d, c);
        StartWritingElsewhere(SetBuf(w2, j, Overwrite(BufAt(w2, j), 0, data)), d, j, |data|, data, token, c);
      case _ =>
    }
  }

  lemma ReadElsewhere(g: Config, w: Worker, d: nat, e: Event, c: nat, i: nat)
    requires e.Complete? && d in w.conns && d in w.traffic && d != c
    ensures var w' := HandleRead(g, w, d, e);
            && SameConn(w, w', c)
            && (i !in w.free && w.conns[d].readBuf != Some(i) ==> BufAt(w', i) == BufAt(w, i))
  {
    hide Respond, Close, Overwrite;
    var w0 := if e.bid.Some? then Recycle(w, e.bid.value) else w;
    CloseElsewhere(w0, d, c);
    if e.result > 0 && e.bid.Some? {
      var w1 := Accumulator(w0, d);
      CloseElsewhere(w1, d, c);
      assert w.free != [] ==> w.free[|w.free| - 1] in w.free;
      assert forall k :: k in w1.free ==> k in w.free;
      if w1.conns[d].readBuf.Some? && w1.conns[d].accumulated + |e.payload| <= g.bufferSize {
        RespondElsewhere(g, CopyIn(w1, d, e.payload), d, e.outcome, e.out, e.keys.token, c, i);
      }
    }
  }

  lemma WriteElsewhere(w: Worker, d: nat, j: nat, result: int, token: nat, c: nat)
    requires d != c
    ensures var w' := HandleWrite(w, d, j, result, token); SameConn(w, w', c) && w'.bufs == w.bufs
  {
    hide Close, Slice, BufAt;
    CloseElsewhere(FreeBuf(w, j), d, c);
  }

  /** An event of another connection leaves a connection alone, and the bytes of its buffers when they are private. */
  lemma OtherEvent(g: Config, w: Worker, e: Event, c: nat, i: nat)
    requires TokenInv(w) && Legal(g, w, e) && c in w.conns && Subject(w, e) != Some(c)
    ensures SameConn(w, Step(g, w, e), c)
    ensures Private(w, c) && i in Mine(w.conns[c]) ==> BufAt(Step(g, w, e), i) == BufAt(w, i)
  {
    hide TokenInv, HandleRead, HandleWrite;
    if e.Complete? {
      CompletionFindsItsConnection(g, w, e);
      var w1 := w.(inflight := w.inflight - {e.token}, tokens := w.tokens - {e.token});
      match w.tokens[e.token]
      case Accept =>
      case Read(d) =>
        ReadElsewhere(g, w1, d, e, c, i);
        assert Private(w, c) && i in Mine(w.conns[c]) ==> i !in Mine(w.conns[d]);
      case Write(d, j) => WriteElsewhere(w1, d, j, e.result, e.keys.token, c);
    }
  }

  lemma OtherFlow(g: Config, w: Worker, e: Event, c: nat)
    requires TokenInv(w) && Legal(g, w, e) && c in w.conns && c in w.traffic && Private(w, c) && Flow(g, w, c)
    requires Subject(w, e) != Some(c)
    ensures var w' := Step(g, w, e); c in w'.conns && c in w'.traffic && Flow(g, w', c)
  {
    hide TokenInv, Legal, Step, Private, Flow;
    var conn := w.conns[c];
    OtherEvent(g, w, e, c, 0);
    if conn.readBuf.Some? {
      OtherEvent(g, w, e, c, conn.readBuf.value);
    }
    if conn.phase.Writing? {
      OtherEvent(g, w, e, c, conn.phase.bufIdx);
    }
    FlowTransfer(g, w, Step(g, w, e), c);
  }

  // ---------------------------------------------------------------- its own events

  lemma AccumulatorFlow(g: Config, w: Worker, c: nat)
    requires c in w.conns && c in w.traffic && Flow(g, w, c)
    ensures Flow(g, Accumulator(w, c), c)
  {
    hide Slice;
    if w.conns[c].readBuf.None? && w.free != [] {
      SliceEmpty(BufAt(Accumulator(w, c), w.free[|w.free| - 1]), 0);
    }
  }

  /** Writing elsewhere, and the free list and the tokens, do not matter to a connection that is reading. */
  lemma ReadingFlow(g: Config, w: Worker, w': Worker, c: nat)
    requires c in w.conns && c in w.traffic && Flow(g, w, c) && w.conns[c].phase.Reading?
    requires c in w'.conns && c in w'.traffic && w'.conns[c] == w.conns[c] && w'.traffic[c] == w.traffic[c]
    requires w.conns[c].readBuf.Some? ==> BufAt(w', w.conns[c].readBuf.value) == BufAt(w, w.conns[c].readBuf.value)
    ensures Flow(g, w', c) && Held(w', w'.conns[c]) == Held(w, w.conns[c])
  {
    hide BufAt, Slice;
    FlowTransfer(g, w, w', c);
  }

  /** Processing with a write buffer other than the accumulation buffer. */
  lemma RespondFlow(g: Config, w: Worker, c: nat, outcome: Outcome, out: Bytes, token: nat)
    requires Bounded(g, w) && c in w.conns && c in w.traffic && w.conns[c].readBuf.Some?
    requires w.conns[c].phase.Reading? && Flow(g, w, c) && |out| == g.bufferSize
    requires outcome.Response? ==> outcome.len <= g.bufferSize
    requires w.free != [] && w.free[|w.free| - 1] != w.conns[c].readBuf.value
    ensures var w' := Respond(g, w, c, outcome, out, token);
            c in w'.conns ==> c in w'.traffic && Flow(g, w', c)
  {
    var i, a := w.free[|w.free| - 1], w.conns[c].readBuf.value;
    var w1 := SetBuf(w, i, out).(free := w.free[..|w.free| - 1]);
    SetBufElsewhere(w, i, out, a);
    ReadingFlow(g, w, w1, c);
    PoolFacts(g, w, c);
    assert BufAt(w1, i) == out && |BufAt(w1, a)| == g.bufferSize;
    hide Flow, Bounded, BufAt, Held, Slice, Overwrite, Consume, StartWriting, SetBuf;
    CloseEnds(FreeBuf(w1, i), c);
    match outcome
    case NeedData => ReadingFlow(g, w1, Submit(FreeBuf(w1, i), token, Read(c)), c);
    case Response(consumed, len) => AnswerFlow(g, w1, c, i, consumed, len, out, token);
    case LargeResponse(consumed, data) => LargeFlow(g, w1, c, i, consumed, data, token);
    case _ =>
  }

  lemma PoolFacts(g: Config, w: Worker, c: nat)
    requires Bounded(g, w) && c in w.conns
    ensures |w.bufs| == g.poolSize && forall k :: 0 <= k < |w.free| ==> w.free[k] < g.poolSize
    ensures w.conns[c].readBuf.Some? ==>
              w.conns[c].readBuf.value < g.poolSize && |BufAt(w, w.conns[c].readBuf.value)| == g.bufferSize
  {
    assert ConnBounded(g, w.conns[c]);
  }

  lemma AnswerFlow(g: Config, w: Worker, c: nat, i: nat, consumed: nat, len: nat, out: Bytes, token: nat)
    requires c in w.conns && c in w.traffic && w.conns[c].readBuf.Some? && w.conns[c].phase.Reading? && Flow(g, w, c)
    requires w.conns[c].readBuf.value < |w.bufs| && w.conns[c].readBuf.value != i
    requires |BufAt(w, w.conns[c].readBuf.value)| == g.bufferSize && BufAt(w, i) == out && len <= g.bufferSize
    ensures var w2 := Consume(w, c, consumed, Held(w, w.conns[c]));
            && c in w2.conns && c in w2.traffic
            && Flow(g, StartWriting(w2, c, i, len, Slice(out, 0, len), token), c)
  {
    hide Flow, BufAt, Held, Slice, Consume, StartWriting;
    var input := Held(w, w.conns[c]);
    var w2 := Consume(w, c, consumed, input);
    ConsumeKeeps(w, c, consumed, input);
    ConsumedFlow(g, w, w2, c, consumed, input);
    ConsumeElsewhere(w, c, consumed, input, i);
    StartWritingFlow(g, w2, c, i, len, Slice(out, 0, len), token);
  }

  lemma LargeFlow(g: Config, w: Worker, c: nat, i: nat, consumed: nat, data: Bytes, token: nat)
    requires c in w.conns && c in w.traffic && w.conns[c].readBuf.Some? && w.conns[c].phase.Reading? && Flow(g, w, c)
    requires w.conns[c].readBuf.value < |w.bufs| && w.conns[c].readBuf.value != i && i < |w.bufs|
    requires |BufAt(w, w.conns[c].readBuf.value)| == |BufAt(w, i)| == g.bufferSize
    ensures var w2 := Consume(w, c, consumed, Held(w, w.conns[c]));
            && c in w2.conns && c in w2.traffic && c !in Close(FreeBuf(w2, i), c).conns
            && (|data| <= g.bufferSize ==>
                  Flow(g, StartWriting(SetBuf(w2, i, Overwrite(BufAt(w2, i), 0, data)), c, i, |data|, data, token), c))
  {
    hide Flow, Held, Slice, Consume, StartWriting, Overwrite;
    var input := Held(w, w.conns[c]);
    var w2 := Consume(w, c, consumed, input);
    ConsumeKeeps(w, c, consumed, input);
    ConsumedFlow(g, w, w2, c, consumed, input);
    ConsumeElsewhere(w, c, consumed, input, i);
    if |data| <= g.bufferSize {
      var b := Overwrite(BufAt(w2, i), 0, data);
      OverwriteTake(BufAt(w2, i), 0, data);
      SliceEmpty(BufAt(w2, i), 0);
      assert [] + data == data;
      SetBufElsewhere(w2, i, b, w.conns[c].readBuf.value);
      ReadingFlow(g, w2, SetBuf(w2, i, b), c);
      ConsumeSize(w, c, consumed, input);
      StartWritingFlow(g, SetBuf(w2, i, b), c, i, |data|, data, token);
    }
  }

  lemma ConsumeSize(w: Worker, c: nat, consumed: nat, input: Bytes)
    requires c in w.conns && w.conns[c].readBuf.Some? && c in w.traffic
    ensures |Consume(w, c, consumed, input).bufs| == |w.bufs|
  {
  }

  /** After its own receive a connection whose buffers are private before and after has its flow intact. */
  lemma ReadFlow(g: Config, w: Worker, c: nat, e: Event)
    requires Bounded(g, w) && e.Complete? && c in w.conns && c in w.traffic && w.conns[c].phase.Reading?
    requires Flow(g, w, c) && |e.out| == g.bufferSize && (e.outcome.Response? ==> e.outcome.len <= g.bufferSize)
    requires Private(w, c)
    ensures var w' := HandleRead(g, w, c, e);
            c in w'.conns && Private(w', c) ==> c in w'.traffic && Flow(g, w', c)
  {
    var w0 := if e.bid.Some? then Recycle(w, e.bid.value) else w;
    hide Respond;
    CloseEnds(w0, c);
    if e.result > 0 && e.bid.Some? {
      ReadingFlow(g, w, w0, c);
      assert Bounded(g, w0);
      AccumulatorFlow(g, w0, c);
      AccumulatorFacts(w0, c);
      AccumulatorBounded(g, w0, c);
      var w1 := Accumulator(w0, c);
      CloseEnds(w1, c);
      if w1.conns[c].readBuf.Some? && w1.conns[c].accumulated + |e.payload| <= g.bufferSize {
        hide Flow, Bounded, Private, Accumulator, CopyIn;
        ReceivedFlow(g, w1, c, e);
      }
    }
  }

  lemma ReceivedFlow(g: Config, w: Worker, c: nat, e: Event)
    requires Bounded(g, w) && e.Complete? && c in w.conns && c in w.traffic && w.conns[c].phase.Reading?
    requires w.conns[c].readBuf.Some? && w.conns[c].accumulated + |e.payload| <= g.bufferSize
    requires Flow(g, w, c) && |e.out| == g.bufferSize && (e.outcome.Response? ==> e.outcome.len <= g.bufferSize)
    ensures var w2 := CopyIn(w, c, e.payload);
            && c in w2.conns && c in w2.traffic && w2.conns[c].readBuf.Some?
            && var w' := Respond(g, w2, c, e.outcome, e.out, e.keys.token);
              c in w'.conns && Private(w', c) ==> c in w'.traffic && Flow(g, w', c)
  {
    hide Flow, Bounded, Private, CopyIn, Respond;
    var w2 := CopyIn(w, c, e.payload);
    PoolFacts(g, w, c);
    CopyInFlow(g, w, c, e.payload);
    CopyInBounded(g, w, c, e.payload);
    CopyInFacts(w, c, e.payload);
    var w' := Respond(g, w2, c, e.outcome, e.out, e.keys.token);
    if c in w'.conns && Private(w', c) {
      OwnBuffersApart(g, w2, c, e.outcome, e.out, e.keys.token);
      RespondFlow(g, w2, c, e.outcome, e.out, e.keys.token);
    }
  }

  /** If its buffers are private afterwards, the write buffer was not the accumulation buffer. */
  lemma OwnBuffersApart(g: Config, w: Worker, c: nat, outcome: Outcome, out: Bytes, token: nat)
    requires c in w.conns && c in w.traffic && w.conns[c].readBuf.Some? && w.conns[c].phase.Reading?
    requires var w' := Respond(g, w, c, outcome, out, token); c in w'.conns && Private(w', c)
    ensures w.free != [] && w.free[|w.free| - 1] != w.conns[c].readBuf.value
  {
    hide Held, Slice, Overwrite, BufAt, Consume;
    CloseEnds(w, c);
    if w.free != [] {
      var i, input := w.free[|w.free| - 1], Held(w, w.conns[c]);
      var w1 := SetBuf(w, i, out).(free := w.free[..|w.free| - 1]);
      CloseEnds(FreeBuf(w1, i), c);
      if outcome.Response? || outcome.LargeResponse? {
        ConsumeKeeps(w1, c, outcome.consumed, input);
        CloseEnds(FreeBuf(Consume(w1, c, outcome.consumed, input), i), c);
      } else if outcome.NeedData? {
        var w' := Respond(g, w, c, outcome, out, token);
        assert w'.free[|w'.free| - 1] == i && w.conns[c].readBuf.value in Mine(w'.conns[c]);
      }
    }
  }

  lemma OwnFlow(g: Config, w: Worker, e: Event, c: nat)
    requires TokenInv(w) && Bounded(g, w) && Legal(g, w, e) && c in w.conns && c in w.traffic
    requires Private(w, c) && Flow(g, w, c) && Subject(w, e) == Some(c)
    ensures var w' := Step(g, w, e); c in w'.conns && Private(w', c) ==> c in w'.traffic && Flow(g, w', c)
  {
    hide TokenInv, HandleRead, HandleWrite, Flow, Private;
    CompletionFindsItsConnection(g, w, e);
    var w1 := w.(inflight := w.inflight - {e.token}, tokens := w.tokens - {e.token});
    FlowTransfer(g, w, w1, c);
    SamePrivate(w, w1, c);
    match w.tokens[e.token]
    case Read(d) => ReadFlow(g, w1, c, e);
    case Write(d, i) =>
      CloseEnds(FreeBuf(w1, i), c);
      WriteResultFlow(g, w1, c, e.result, e.keys.token);
  }

  lemma SamePrivate(w: Worker, w': Worker, c: nat)
    requires c in w.conns && w'.conns == w.conns && w'.free == w.free
    ensures Private(w, c) <==> Private(w', c)
  {
  }

  lemma WriteResultFlow(g: Config, w: Worker, c: nat, result: int, token: nat)
    requires Bounded(g, w) && c in w.conns && c in w.traffic && w.conns[c].phase.Writing? && Flow(g, w, c)
    requires result <= w.conns[c].phase.total - w.conns[c].phase.written
    ensures var w' := HandleWrite(w, c, w.conns[c].phase.bufIdx, result, token);
            c in w'.conns ==> c in w'.traffic && Flow(g, w', c)
  {
    assert ConnBounded(g, w.conns[c]);
    hide Flow, Slice;
    if result > 0 {
      WriteFlow(g, w, c, result, token);
    }
  }

  // ---------------------------------------------------------------- whole runs

  /** One event, of whichever connection. */
  lemma EventFlow(g: Config, w: Worker, e: Event, c: nat)
    requires TokenInv(w) && Bounded(g, w) && Legal(g, w, e) && c in w.conns && c in w.traffic
    requires Private(w, c) && Flow(g, w, c) && c in Step(g, w, e).conns && Private(Step(g, w, e), c)
    ensures c in Step(g, w, e).traffic && Flow(g, Step(g, w, e), c)
  {
    hide TokenInv, Bounded, Legal, Step, Private, Flow;
    if Subject(w, e) == Some(c) {
      OwnFlow(g, w, e, c);
    } else {
      OtherFlow(g, w, e, c);
    }
  }

  /** Connection `c` was accepted at event `k` - 1 and lives from state `k` to state `n`, all the time with buffers of
      its own. */
  ghost predicate LivesPrivately(ws: seq<Worker>, c: nat, k: nat, n: nat)
    requires 0 < k <= n < |ws|
  {
    c !in ws[k - 1].conns && forall j :: k <= j <= n ==> c in ws[j].conns && Private(ws[j], c)
  }

  /** A connection starts with nothing received and nothing sent. */
  lemma NewFlow(g: Config, w: Worker, e: Event, c: nat)
    requires TokenInv(w) && Legal(g, w, e) && c !in w.conns && c in Step(g, w, e).conns
    ensures c in Step(g, w, e).traffic && Flow(g, Step(g, w, e), c)
  {
    if e.Complete? {
      CompletionFindsItsConnection(g, w, e);
      hide TokenInv, HandleRead, HandleWrite;
      var w1 := w.(inflight := w.inflight - {e.token}, tokens := w.tokens - {e.token});
      match w.tokens[e.token]
      case Accept => NewConnFlow(g, Step(g, w, e), c);
      case Read(d) => ReadShape(g, w1, d, e);
      case Write(d, i) => WriteShape(w1, d, i, e.result, e.keys.token);
    }
  }

  lemma {:induction false} LifeFlow(g: Config, ws: seq<Worker>, es: seq<Event>, c: nat, k: nat, n: nat)
    requires Run(g, ws, es) && 0 < k <= n < |ws| && LivesPrivately(ws, c, k, n)
    ensures c in ws[n].traffic && Flow(g, ws[n], c)
    decreases n
  {
    hide TokenInv, Bounded, Legal, Step, Private, Flow;
    RunStep(g, ws, es, n - 1);
    RunTokens(g, ws, es, n - 1);
    RunBounds(g, ws, es, n - 1);
    if n == k {
      NewFlow(g, ws[n - 1], es[n - 1], c);
    } else {
      LifeFlow(g, ws, es, c, k, n - 1);
      EventFlow(g, ws[n - 1], es[n - 1], c);
    }
  }

  /** On every run, failed writes or not: while a connection's buffers are its own, no byte it received is lost, and
      the bytes it sent are a prefix of its responses in order, all of them whenever it is reading again. */
  lemma PrivateIntegrity(g: Config, ws: seq<Worker>, es: seq<Event>, c: nat, k: nat, n: nat)
    requires Run(g, ws, es) && 0 < k <= n < |ws| && LivesPrivately(ws, c, k, n)
    ensures c in ws[n].conns && c in ws[n].traffic
    ensures var t, conn := ws[n].traffic[c], ws[n].conns[c];
            && t.received == t.consumed + Held(ws[n], conn)
            && t.sent <= t.responses && (conn.phase.Reading? ==> t.sent == t.responses)
  {
    LifeFlow(g, ws, es, c, k, n);
    hide Run, LivesPrivately;
    assert c in ws[n].conns by {
      LivesAt(ws, c, k, n);
    }
  }

  lemma LivesAt(ws: seq<Worker>, c: nat, k: nat, n: nat)
    requires 0 < k <= n < |ws| && LivesPrivately(ws, c, k, n)
    ensures c in ws[n].conns
  {
  }
}
