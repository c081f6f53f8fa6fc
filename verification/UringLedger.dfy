/** What the completions of a connection add up to, told from the events alone: the bytes it received, how many of them
    its requests used up, the responses it owes and how many bytes of those were sent. On every run the worker's own
    state agrees with this account. */
module UringLedger {
  import opened Base
  import opened Connection
  import opened UringSpec
  import opened UringTokens
  import opened UringBuffers
  import opened UringBounds
  import opened UringPrivate

  datatype Ledger = Ledger(received: Bytes, used: nat, responses: Bytes, sent: nat)

  const OPENED := Ledger([], 0, [], 0)

  /** One more completion that left the connection open. A request uses up the bytes its outcome says, but no more than
      have arrived. */
  function Enter(l: Ledger, op: OpType, e: Event): Ledger
    requires e.Complete?
  {
    match op
    case Accept => l
    case Write(_, _) => l.(sent := l.sent + Max(e.result, 0))
    case Read(_) =>
      var received := l.received + e.payload;
      match e.outcome
      case Response(consumed, len) =>
        Ledger(received, Min(l.used + consumed, |received|), l.responses + Slice(e.out, 0, len), l.sent)
      case LargeResponse(consumed, data) =>
        Ledger(received, Min(l.used + consumed, |received|), l.responses + data, l.sent)
      case _ => l.(received := received)
  }

  /** The account at state `n` of the connection `c` that was accepted at event `k` - 1. */
  function LedgerAt(ws: seq<Worker>, es: seq<Event>, c: nat, k: nat, n: nat): Ledger
    requires k <= n < |ws| == |es| + 1
  {
    if n == k then OPENED
    else
      var l, w, e := LedgerAt(ws, es, c, k, n - 1), ws[n - 1], es[n - 1];
      if Subject(w, e) == Some(c) then Enter(l, w.tokens[e.token], e) else l
  }

  /** The worker's state of the connection is what the account says. */
  ghost predicate Agrees(w: Worker, c: nat, l: Ledger) {
    && c in w.conns && c in w.traffic
    && w.traffic[c].received == l.received
    && |w.traffic[c].consumed| == l.used
    && w.traffic[c].responses == l.responses
    && |w.traffic[c].sent| == l.sent
    && l.used + w.conns[c].accumulated == |l.received|
  }

  // ---------------------------------------------------------------- a receive

  lemma CopyInAgrees(w: Worker, c: nat, l: Ledger, payload: Bytes)
    requires Agrees(w, c, l) && w.conns[c].readBuf.Some?
    ensures Agrees(CopyIn(w, c, payload), c, l.(received := l.received + payload))
  {
    hide Overwrite;
  }

  /** Consuming takes `consumed` bytes off the accumulated ones, or all of them. */
  lemma ConsumeAgrees(w: Worker, c: nat, l: Ledger, consumed: nat, input: Bytes)
    requires Agrees(w, c, l) && w.conns[c].readBuf.Some? && |input| == w.conns[c].accumulated
    ensures Agrees(Consume(w, c, consumed, input), c, l.(used := Min(l.used + consumed, |l.received|)))
  {
    hide Overwrite;
  }

  lemma StartWritingAgrees(w: Worker, c: nat, l: Ledger, i: nat, len: nat, response: Bytes, token: nat)
    requires Agrees(w, c, l)
    ensures Agrees(StartWriting(w, c, i, len, response, token), c, l.(responses := l.responses + response))
  {
  }

  /** The account depends on the connection and its traffic only. */
  lemma SameAgrees(w: Worker, w': Worker, c: nat, l: Ledger)
    requires Agrees(w, c, l) && SameConn(w, w', c)
    ensures Agrees(w', c, l)
  {
  }

  lemma RespondAgrees(g: Config, w: Worker, c: nat, l: Ledger, outcome: Outcome, out: Bytes, token: nat)
    requires Agrees(w, c, l) && w.conns[c].readBuf.Some? && |Held(w, w.conns[c])| == w.conns[c].accumulated
    ensures var w' := Respond(g, w, c, outcome, out, token);
            c in w'.conns ==>
              Agrees(w', c, match outcome
                            case Response(consumed, len) =>
                              l.(used := Min(l.used + consumed, |l.received|),
                                 responses := l.responses + Slice(out, 0, len))
                            case LargeResponse(consumed, data) =>
                              l.(used := Min(l.used + consumed, |l.received|), responses := l.responses + data)
                            case _ => l)
  {
    CloseEnds(w, c);
    if w.free != [] {
      var i, input := w.free[|w.free| - 1], Held(w, w.conns[c]);
      var w1 := SetBuf(w, i, out).(free := w.free[..|w.free| - 1]);
      CloseEnds(FreeBuf(w1, i), c);
      hide Consume, StartWriting, Close, Held, Slice, Overwrite, BufAt;
      match outcome
      case NeedData => SameAgrees(w, Submit(FreeBuf(w1, i), token, Read(c)), c, l);
      case Response(consumed, len) =>
        ConsumeAgrees(w1, c, l, consumed, input);
        var l1, w2 := l.(used := Min(l.used + consumed, |l.received|)), Consume(w1, c, consumed, input);
        StartWritingAgrees(w2, c, l1, i, len, Slice(out, 0, len), token);
      case LargeResponse(consumed, data) =>
        ConsumeAgrees(w1, c, l, consumed, input);
        var l1, w2 := l.(used := Min(l.used + consumed, |l.received|)), Consume(w1, c, consumed, input);
        CloseEnds(FreeBuf(w2, i), c);
        StartWritingAgrees(SetBuf(w2, i, Overwrite(BufAt(w2, i), 0, data)), c, l1, i, |data|, data, token);
      case _ =>
    }
  }

  lemma ConsumeLeaves(w: Worker, c: nat, consumed: nat, input: Bytes)
    requires c in w.conns && c in w.traffic && w.conns[c].readBuf.Some?
    ensures var w' := Consume(w, c, consumed, input);
            c in w'.conns && c in w'.traffic && w'.conns[c].accumulated == Max(w.conns[c].accumulated - consumed, 0)
  {
    hide Overwrite, Slice, BufAt;
  }

  /** What stays accumulated after processing. */
  function Left(outcome: Outcome, total: nat): nat {
    if outcome.Response? || outcome.LargeResponse? then Max(total - outcome.consumed, 0) else total
  }

  lemma RespondLeaves(g: Config, w: Worker, c: nat, outcome: Outcome, out: Bytes, token: nat)
    requires c in w.conns && c in w.traffic && w.conns[c].readBuf.Some?
    ensures var w' := Respond(g, w, c, outcome, out, token);
            c in w'.conns ==> w'.conns[c].accumulated == Left(outcome, w.conns[c].accumulated)
  {
    CloseEnds(w, c);
    if w.free != [] {
      var i, input := w.free[|w.free| - 1], Held(w, w.conns[c]);
      var w1 := SetBuf(w, i, out).(free := w.free[..|w.free| - 1]);
      CloseEnds(FreeBuf(w1, i), c);
      hide Close, Consume, Held, Slice, Overwrite, BufAt;
      if outcome.Response? || outcome.LargeResponse? {
        ConsumeLeaves(w1, c, outcome.consumed, input);
        CloseEnds(FreeBuf(Consume(w1, c, outcome.consumed, input), i), c);
      }
    }
  }

  lemma HeldSize(g: Config, w: Worker, c: nat)
    requires Bounded(g, w) && c in w.conns
    ensures |Held(w, w.conns[c])| == w.conns[c].accumulated
  {
    assert ConnBounded(g, w.conns[c]);
  }

  lemma ReadAgrees(g: Config, w: Worker, c: nat, l: Ledger, e: Event)
    requires Bounded(g, w) && e.Complete? && Agrees(w, c, l)
    ensures var w' := HandleRead(g, w, c, e); c in w'.conns ==> Agrees(w', c, Enter(l, Read(c), e))
  {
    var w0 := if e.bid.Some? then Recycle(w, e.bid.value) else w;
    assert Bounded(g, w0);
    hide Respond, CopyIn, Accumulator, Bounded, Held;
    CloseEnds(w0, c);
    if e.result > 0 && e.bid.Some? {
      var w1 := Accumulator(w0, c);
      AccumulatorAgrees(w0, c, l);
      AccumulatorBounded(g, w0, c);
      CloseEnds(w1, c);
      if w1.conns[c].readBuf.Some? && w1.conns[c].accumulated + |e.payload| <= g.bufferSize {
        var w2 := CopyIn(w1, c, e.payload);
        CopyInBounded(g, w1, c, e.payload);
        CopyInFacts(w1, c, e.payload);
        CopyInAgrees(w1, c, l, e.payload);
        HeldSize(g, w2, c);
        RespondAgrees(g, w2, c, l.(received := l.received + e.payload), e.outcome, e.out, e.keys.token);
      }
    }
  }

  lemma AccumulatorAgrees(w: Worker, c: nat, l: Ledger)
    requires Agrees(w, c, l)
    ensures Agrees(Accumulator(w, c), c, l)
  {
  }

  // ---------------------------------------------------------------- a send, any event

  lemma WriteAgrees(g: Config, w: Worker, c: nat, l: Ledger, e: Event)
    requires Bounded(g, w) && e.Complete? && Agrees(w, c, l) && w.conns[c].phase.Writing?
    requires e.result <= w.conns[c].phase.total - w.conns[c].phase.written
    ensures var i := w.conns[c].phase.bufIdx;
            var w' := HandleWrite(w, c, i, e.result, e.keys.token);
            c in w'.conns ==> Agrees(w', c, Enter(l, Write(c, i), e))
  {
    var phase := w.conns[c].phase;
    assert ConnBounded(g, w.conns[c]);
    BufSize(g, w, phase.bufIdx);
    hide Bounded, BufAt;
    CloseEnds(FreeBuf(w, phase.bufIdx), c);
  }

  lemma StepAgrees(g: Config, w: Worker, e: Event, c: nat, l: Ledger)
    requires TokenInv(w) && Bounded(g, w) && Legal(g, w, e) && Agrees(w, c, l) && c in Step(g, w, e).conns
    ensures Agrees(Step(g, w, e), c, if Subject(w, e) == Some(c) then Enter(l, w.tokens[e.token], e) else l)
  {
    hide TokenInv, HandleRead, HandleWrite, Bounded;
    if Subject(w, e) == Some(c) {
      CompletionFindsItsConnection(g, w, e);
      var w1 := w.(inflight := w.inflight - {e.token}, tokens := w.tokens - {e.token});
      SameBounds(g, w, w1);
      match w.tokens[e.token]
      case Read(_) => ReadAgrees(g, w1, c, l, e);
      case Write(_, i) => WriteAgrees(g, w1, c, l, e);
    } else {
      OtherEvent(g, w, e, c, 0);
      SameAgrees(w, Step(g, w, e), c, l);
    }
  }

  lemma SameBounds(g: Config, w: Worker, w': Worker)
    requires Bounded(g, w) && w'.bufs == w.bufs && w'.free == w.free && w'.conns == w.conns
    ensures Bounded(g, w')
  {
  }

  lemma NewAgrees(g: Config, w: Worker, e: Event, c: nat)
    requires TokenInv(w) && Legal(g, w, e) && c !in w.conns && c in Step(g, w, e).conns
    ensures Agrees(Step(g, w, e), c, OPENED)
  {
    if e.Complete? {
      CompletionFindsItsConnection(g, w, e);
      hide TokenInv, HandleRead, HandleWrite, HandleAccept, Agrees;
      var w1 := w.(inflight := w.inflight - {e.token}, tokens := w.tokens - {e.token});
      match w.tokens[e.token]
      case Accept => AcceptAgrees(g, w1, e, c);
      case Read(d) => ReadShape(g, w1, d, e);
      case Write(d, i) => WriteShape(w1, d, i, e.result, e.keys.token);
    }
  }

  lemma AcceptAgrees(g: Config, w: Worker, e: Event, c: nat)
    requires e.Complete? && c !in w.conns && c in HandleAccept(g, w, e.result, e.keys).conns
    ensures Agrees(HandleAccept(g, w, e.result, e.keys), c, OPENED)
  {
  }

  // ---------------------------------------------------------------- whole runs

  /** Connection `c` was accepted at event `k` - 1 and lives from state `k` to state `n`. */
  ghost predicate Lives(ws: seq<Worker>, c: nat, k: nat, n: nat)
    requires 0 < k <= n < |ws|
  {
    c !in ws[k - 1].conns && forall j :: k <= j <= n ==> c in ws[j].conns
  }

  /** On every run, failed writes or not, for every connection: the bytes received, used up and owed are those its
      completions add up to, and what is left to process is exactly what was received and not used up. */
  lemma {:induction false} LedgerHolds(g: Config, ws: seq<Worker>, es: seq<Event>, c: nat, k: nat, n: nat)
    requires Run(g, ws, es) && 0 < k <= n < |ws| && Lives(ws, c, k, n)
    ensures Agrees(ws[n], c, LedgerAt(ws, es, c, k, n))
    decreases n
  {
    hide TokenInv, Bounded, Legal, Step, Agrees;
    RunStep(g, ws, es, n - 1);
    RunTokens(g, ws, es, n - 1);
    RunBounds(g, ws, es, n - 1);
    if n == k {
      NewAgrees(g, ws[n - 1], es[n - 1], c);
    } else {
      LedgerHolds(g, ws, es, c, k, n - 1);
      StepAgrees(g, ws[n - 1], es[n - 1], c, LedgerAt(ws, es, c, k, n - 1));
    }
  }

  lemma PrivateLives(ws: seq<Worker>, c: nat, k: nat, n: nat)
    requires 0 < k <= n < |ws| && LivesPrivately(ws, c, k, n)
    ensures Lives(ws, c, k, n) && c in ws[n].conns
  {
  }

  /** What a connection holds and has sent is cut out of the account exactly. */
  ghost predicate Exact(w: Worker, c: nat, l: Ledger) {
    && c in w.conns && c in w.traffic
    && l.used <= |l.received| && Held(w, w.conns[c]) == l.received[l.used..]
    && w.traffic[c].consumed == l.received[..l.used]
    && l.sent <= |l.responses| && w.traffic[c].sent == l.responses[..l.sent]
    && (w.conns[c].phase.Reading? ==> l.sent == |l.responses|)
  }

  lemma AgreesExactly(w: Worker, c: nat, l: Ledger)
    requires Agrees(w, c, l)
    requires w.traffic[c].received == w.traffic[c].consumed + Held(w, w.conns[c])
    requires w.traffic[c].sent <= w.traffic[c].responses
    requires w.conns[c].phase.Reading? ==> w.traffic[c].sent == w.traffic[c].responses
    ensures Exact(w, c, l)
  {
    hide Held;
    assert w.traffic[c].sent == w.traffic[c].responses[..|w.traffic[c].sent|];
  }

  /** On every run, failed writes or not: while a connection's buffers are its own, the bytes it holds are exactly the
      received bytes that its requests have not used up, in order, and the bytes sent are exactly that many first bytes
      of its responses, all of them whenever it is reading again. */
  lemma PrivateExact(g: Config, ws: seq<Worker>, es: seq<Event>, c: nat, k: nat, n: nat)
    requires Run(g, ws, es) && 0 < k <= n < |ws| && LivesPrivately(ws, c, k, n)
    ensures Exact(ws[n], c, LedgerAt(ws, es, c, k, n))
  {
    hide LivesPrivately, Exact, Held;
    PrivateLives(ws, c, k, n);
    PrivateIntegrity(g, ws, es, c, k, n);
    LedgerHolds(g, ws, es, c, k, n);
    AgreesExactly(ws[n], c, LedgerAt(ws, es, c, k, n));
  }

  /** The same for every connection before the first failed write. */
  lemma ExactBeforeFailure(g: Config, ws: seq<Worker>, es: seq<Event>, c: nat, k: nat, n: nat)
    requires Run(g, ws, es) && 0 < k <= n < |ws| && Lives(ws, c, k, n)
    requires forall j :: 0 <= j < n ==> !FailedWrite(ws[j], es[j])
    ensures Exact(ws[n], c, LedgerAt(ws, es, c, k, n))
  {
    hide Exact, Held, FailedWrite;
    LedgerHolds(g, ws, es, c, k, n);
    InputConserved(g, ws, es, n, c);
    SendIntegrity(g, ws, es, n, c);
    AgreesExactly(ws[n], c, LedgerAt(ws, es, c, k, n));
  }

  // ---------------------------------------------------------------- when a connection stays open

  /** A receive leaves its connection open: there were bytes, buffers for them and for a response, and an outcome that
      asks for more or fits a response buffer. */
  predicate ReadGoesOn(g: Config, w: Worker, conn: Conn, e: Event)
    requires e.Complete?
  {
    && e.result > 0 && e.bid.Some?
    && |w.free| >= (if conn.readBuf.Some? then 1 else 2)
    && conn.accumulated + |e.payload| <= g.bufferSize
    && (e.outcome.NeedData? || e.outcome.Response? || (e.outcome.LargeResponse? && |e.outcome.data| <= g.bufferSize))
  }

  /** What the connection does next. */
  predicate Next(before: DataState, after: DataState, op: OpType, e: Event)
    requires e.Complete?
  {
    if op.Read? then
      match e.outcome
      case Response(_, len) => after.Writing? && after.written == 0 && after.total == len
      case LargeResponse(_, data) => after.Writing? && after.written == 0 && after.total == |data|
      case _ => after == before
    else
      && before.Writing?
      && if before.written + e.result >= before.total then after.Reading?
         else
           && after.Writing? && after.bufIdx == before.bufIdx
           && after.written == before.written + e.result && after.total == before.total
  }

  lemma RespondNext(g: Config, w: Worker, c: nat, e: Event)
    requires e.Complete? && c in w.conns && c in w.traffic && w.conns[c].readBuf.Some?
    ensures var w' := Respond(g, w, c, e.outcome, e.out, e.keys.token);
            && (c in w'.conns <==> && w.free != []
                                   && (|| e.outcome.NeedData? || e.outcome.Response?
                                       || (e.outcome.LargeResponse? && |e.outcome.data| <= g.bufferSize)))
            && (c in w'.conns ==> Next(w.conns[c].phase, w'.conns[c].phase, Read(c), e))
  {
    CloseEnds(w, c);
    if w.free != [] {
      var i, input := w.free[|w.free| - 1], Held(w, w.conns[c]);
      var w1 := SetBuf(w, i, e.out).(free := w.free[..|w.free| - 1]);
      CloseEnds(FreeBuf(w1, i), c);
      hide Consume, Close, Held, Slice, Overwrite, BufAt;
      if e.outcome.Response? || e.outcome.LargeResponse? {
        ConsumeKeeps(w1, c, e.outcome.consumed, input);
        CloseEnds(FreeBuf(Consume(w1, c, e.outcome.consumed, input), i), c);
      }
    }
  }

  lemma ReadNext(g: Config, w: Worker, c: nat, e: Event)
    requires e.Complete? && c in w.conns && c in w.traffic
    ensures var w' := HandleRead(g, w, c, e);
            && (c in w'.conns <==> ReadGoesOn(g, w, w.conns[c], e))
            && (c in w'.conns ==> Next(w.conns[c].phase, w'.conns[c].phase, Read(c), e))
  {
    hide Respond, Overwrite, Next;
    var w0 := if e.bid.Some? then Recycle(w, e.bid.value) else w;
    CloseEnds(w0, c);
    if e.result > 0 && e.bid.Some? {
      var w1 := Accumulator(w0, c);
      CloseEnds(w1, c);
      if w1.conns[c].readBuf.Some? && w1.conns[c].accumulated + |e.payload| <= g.bufferSize {
        RespondNext(g, CopyIn(w1, c, e.payload), c, e);
      }
    }
  }

  lemma WriteNext(w: Worker, c: nat, e: Event)
    requires e.Complete? && c in w.conns && c in w.traffic && w.conns[c].phase.Writing?
    ensures var i := w.conns[c].phase.bufIdx;
            var w' := HandleWrite(w, c, i, e.result, e.keys.token);
            && (c in w'.conns <==> e.result > 0)
            && (c in w'.conns ==> Next(w.conns[c].phase, w'.conns[c].phase, Write(c, i), e))
  {
    hide Slice, BufAt;
    CloseEnds(FreeBuf(w, w.conns[c].phase.bufIdx), c);
  }

  /** On every run: a completion leaves its connection open exactly when a send sent something, or a receive brought
      something that could be stored and answered; and it then goes on to write the whole response, to write the rest
      of it, or to read. */
  lemma StaysOpenIff(g: Config, ws: seq<Worker>, es: seq<Event>, c: nat, n: nat)
    requires Run(g, ws, es) && n < |es| && Subject(ws[n], es[n]) == Some(c)
    ensures var w, e := ws[n], es[n];
            && c in w.conns
            && (c in ws[n + 1].conns <==>
                  if w.tokens[e.token].Write? then e.result > 0 else ReadGoesOn(g, w, w.conns[c], e))
            && (c in ws[n + 1].conns ==> Next(w.conns[c].phase, ws[n + 1].conns[c].phase, w.tokens[e.token], e))
  {
    RunStep(g, ws, es, n);
    RunTokens(g, ws, es, n);
    var w, e := ws[n], es[n];
    hide TokenInv, HandleRead, HandleWrite, Next, Run, Legal;
    CompletionFindsItsConnection(g, w, e);
    var w1 := w.(inflight := w.inflight - {e.token}, tokens := w.tokens - {e.token});
    match w.tokens[e.token]
    case Read(_) => ReadNext(g, w1, c, e);
    case Write(_, i) => WriteNext(w1, c, e);
  }
}
