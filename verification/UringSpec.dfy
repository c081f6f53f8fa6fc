/** One io_uring worker as values: its tokens, connections, buffers and provided-buffer ring, and what
    each completion does to them. The kernel is an environment that completes any outstanding operation
    next, with any result it may return. */
module UringSpec {
  import opened Base
  import opened Buffers
  import opened Connection

  datatype Config = Config(maxConnections: nat, bufferSize: nat, poolSize: nat, ringEntries: nat)

  datatype OpType = Accept | Read(connId: nat) | Write(connId: nat, bufIdx: nat)

  datatype Conn = Conn(phase: DataState, readBuf: Option<nat>, accumulated: nat)

  /** What has gone through a connection: bytes copied in, bytes consumed by processed requests,
      responses produced, bytes the kernel reported as sent. */
  datatype Traffic = Traffic(received: Bytes, consumed: Bytes, responses: Bytes, sent: Bytes)

  datatype Worker = Worker(
    tokens: map<nat, OpType>,
    conns: map<nat, Conn>,
    bufs: seq<Bytes>,
    free: seq<nat>,
    inRing: seq<nat>,        // provided buffers the kernel may pick, in order
    held: set<nat>,          // provided buffers picked and not yet recycled
    inflight: set<nat>,      // operations the kernel has been given and has not completed
    traffic: map<nat, Traffic>)

  /** Result of processing a request. */
  datatype Outcome =
    | NeedData
    | NeedChain
    | Response(consumed: nat, len: nat)
    | LargeResponse(consumed: nat, data: Bytes)
    | Quit
    | Failed

  /** Slab keys handed out during one completion. */
  datatype SlabKeys = SlabKeys(token: nat, connId: nat, readToken: nat)

  datatype Event =
    | Select
    | Complete(token: nat, result: int, bid: Option<nat>, payload: Bytes, outcome: Outcome, out: Bytes, keys: SlabKeys)

  // ---------------------------------------------------------------- buffers

  function BufAt(w: Worker, i: nat): Bytes {
    if i < |w.bufs| then w.bufs[i] else []
  }

  function SetBuf(w: Worker, i: nat, b: Bytes): Worker {
    if i < |w.bufs| then w.(bufs := w.bufs[i := b]) else w
  }

  function Overwrite(buf: Bytes, off: nat, data: Bytes): Bytes {
    if off + |data| <= |buf| then Splice(buf, off, data) else buf
  }

  function Slice(buf: Bytes, from: nat, to: nat): Bytes {
    if from <= to <= |buf| then buf[from..to] else []
  }

  function FreeBuf(w: Worker, i: nat): Worker {
    w.(free := w.free + [i])
  }

  function Recycle(w: Worker, bid: nat): Worker {
    w.(inRing := w.inRing + [bid], held := w.held - {bid})
  }

  // ---------------------------------------------------------------- submissions and closing

  function Submit(w: Worker, token: nat, op: OpType): Worker {
    w.(tokens := w.tokens[token := op], inflight := w.inflight + {token})
  }

  /** The operation a connection in this phase waits for. */
  function Expected(c: nat, conn: Conn): OpType {
    if conn.phase.Writing? then Write(c, conn.phase.bufIdx) else Read(c)
  }

  /** `close_connection` */
  function Close(w: Worker, c: nat): Worker {
    if c !in w.conns then w
    else
      var conn := w.conns[c];
      var w1 := if conn.phase.Writing? then FreeBuf(w, conn.phase.bufIdx) else w;
      var w2 := if conn.readBuf.Some? then FreeBuf(w1, conn.readBuf.value) else w1;
      w2.(conns := w.conns - {c}, traffic := w.traffic - {c})
  }

  // ---------------------------------------------------------------- handle_accept

  const NEW_CONN := Conn(Reading(0), None, 0)
  const NO_TRAFFIC := Traffic([], [], [], [])

  function HandleAccept(g: Config, w: Worker, result: int, keys: SlabKeys): Worker {
    var w1 := Submit(w, keys.token, Accept);
    if result < 0 || |w.conns| >= g.maxConnections then w1
    else
      Submit(w1.(conns := w.conns[keys.connId := NEW_CONN], traffic := w.traffic[keys.connId := NO_TRAFFIC]),
             keys.readToken, Read(keys.connId))
  }

  // ---------------------------------------------------------------- handle_read

  /** Take an accumulation buffer if the connection has none. */
  function Accumulator(w: Worker, c: nat): Worker
    requires c in w.conns
  {
    if w.conns[c].readBuf.Some? || w.free == [] then w
    else
      w.(conns := w.conns[c := w.conns[c].(readBuf := Some(w.free[|w.free| - 1]))], free := w.free[..|w.free| - 1])
  }

  /** Copy the received bytes behind the accumulated ones. */
  function CopyIn(w: Worker, c: nat, payload: Bytes): Worker
    requires c in w.conns && w.conns[c].readBuf.Some? && c in w.traffic
  {
    var conn := w.conns[c];
    var i := conn.readBuf.value;
    SetBuf(w, i, Overwrite(BufAt(w, i), conn.accumulated, payload))
    .(conns := w.conns[c := conn.(accumulated := conn.accumulated + |payload|)],
      traffic := w.traffic[c := w.traffic[c].(received := w.traffic[c].received + payload)])
  }

  /** Bytes accumulated and not yet consumed. */
  function Held(w: Worker, conn: Conn): Bytes {
    if conn.readBuf.Some? then Slice(BufAt(w, conn.readBuf.value), 0, conn.accumulated) else []
  }

  /** Drop the consumed bytes from the accumulation buffer, moving the rest to its start. What was consumed is the
      head of `input`, the copy that was processed. */
  function Consume(w: Worker, c: nat, consumed: nat, input: Bytes): Worker
    requires c in w.conns && w.conns[c].readBuf.Some? && c in w.traffic
  {
    var conn := w.conns[c];
    var i, total := conn.readBuf.value, conn.accumulated;
    var used := Slice(input, 0, Min(consumed, total));
    var w1 := w.(traffic := w.traffic[c := w.traffic[c].(consumed := w.traffic[c].consumed + used)]);
    if consumed < total then
      SetBuf(w1, i, Overwrite(BufAt(w, i), 0, Slice(BufAt(w, i), consumed, total)))
      .(conns := w.conns[c := conn.(accumulated := total - consumed)])
    else w1.(conns := w.conns[c := conn.(accumulated := 0)])
  }

  /** `start_writing` and the write submission; `response` is what was put into the buffer. */
  function StartWriting(w: Worker, c: nat, i: nat, len: nat, response: Bytes, token: nat): Worker
    requires c in w.conns && c in w.traffic
  {
    var t := w.traffic[c];
    Submit(w.(conns := w.conns[c := w.conns[c].(phase := Writing(i, 0, len))],
              traffic := w.traffic[c := t.(responses := t.responses + response)]),
           token, Write(c, i))
  }

  /** From the copy of the input and the write-buffer allocation on; `out` is the write buffer after processing. */
  function Respond(g: Config, w: Worker, c: nat, outcome: Outcome, out: Bytes, token: nat): Worker
    requires c in w.conns && w.conns[c].readBuf.Some? && c in w.traffic
  {
    var input := Held(w, w.conns[c]);
    if w.free == [] then Close(w, c)
    else
      var i := w.free[|w.free| - 1];
      var w1 := SetBuf(w, i, out).(free := w.free[..|w.free| - 1]);
      match outcome
      case NeedData => Submit(FreeBuf(w1, i), token, Read(c))
      case NeedChain => Close(FreeBuf(w1, i), c)
      case Response(consumed, len) =>
        StartWriting(Consume(w1, c, consumed, input), c, i, len, Slice(out, 0, len), token)
      case LargeResponse(consumed, data) =>
        var w2 := Consume(w1, c, consumed, input);
        if |data| <= g.bufferSize then
          StartWriting(SetBuf(w2, i, Overwrite(BufAt(w2, i), 0, data)), c, i, |data|, data, token)
        else Close(FreeBuf(w2, i), c)
      case Quit => Close(FreeBuf(w1, i), c)
      case Failed => Close(FreeBuf(w1, i), c)
  }

  function HandleRead(g: Config, w: Worker, c: nat, e: Event): Worker
    requires e.Complete?
  {
    var w0 := if e.bid.Some? then Recycle(w, e.bid.value) else w;
    if e.result <= 0 || e.bid.None? then Close(w0, c)
    else if c !in w.conns || c !in w.traffic then w0
    else
      var w1 := Accumulator(w0, c);
      if w1.conns[c].readBuf.None? then Close(w0, c)
      else if w1.conns[c].accumulated + |e.payload| > g.bufferSize then Close(w1, c)
      else Respond(g, CopyIn(w1, c, e.payload), c, e.outcome, e.out, e.keys.token)
  }

  // ---------------------------------------------------------------- handle_write

  function HandleWrite(w: Worker, c: nat, i: nat, result: int, token: nat): Worker {
    if result <= 0 then Close(FreeBuf(w, i), c)
    else if c !in w.conns || c !in w.traffic then FreeBuf(w, i)
    else if w.conns[c].phase.Reading? then w
    else
      var conn, t := w.conns[c], w.traffic[c];
      var Writing(b, written, total) := conn.phase;
      var traffic := w.traffic[c := t.(sent := t.sent + Slice(BufAt(w, b), written, written + result))];
      if written + result >= total then
        Submit(FreeBuf(w, i).(conns := w.conns[c := conn.(phase := Reading(0))], traffic := traffic), token, Read(c))
      else
        Submit(w.(conns := w.conns[c := conn.(phase := Writing(b, written + result, total))], traffic := traffic),
               token, Write(c, b))
  }

  // ---------------------------------------------------------------- runs

  /** The completion loop: free the token, dispatch on the operation. */
  function Step(g: Config, w: Worker, e: Event): Worker {
    match e
    case Select =>
      if w.inRing == [] then w
      else w.(inRing := w.inRing[1..], held := w.held + {w.inRing[0]})
    case Complete(token, result, bid, payload, outcome, out, keys) =>
      var w0 := w.(inflight := w.inflight - {token});
      if token !in w.tokens then w0
      else
        var w1 := w0.(tokens := w.tokens - {token});
        match w.tokens[token]
        case Accept => HandleAccept(g, w1, result, keys)
        case Read(c) => HandleRead(g, w1, c, e)
        case Write(c, i) => HandleWrite(w1, c, i, result, keys.token)
  }

  /** What the kernel and the slabs may do: complete an operation that is in flight, deliver a picked
      buffer with at most a buffer of data, send at most what was asked, hand out vacant keys. */
  ghost predicate Legal(g: Config, w: Worker, e: Event) {
    e.Complete? ==>
      && e.token in w.inflight
      && (e.bid.Some? ==> e.bid.value in w.held)
      && (e.result > 0 && e.bid.Some? ==> |e.payload| == e.result <= g.bufferSize)
      && |e.out| == g.bufferSize
      && (e.outcome.Response? ==> e.outcome.len <= g.bufferSize)
      && e.keys.token !in w.tokens - {e.token}
      && e.keys.readToken !in w.tokens - {e.token} && e.keys.readToken != e.keys.token
      && e.keys.connId !in w.conns
      && (e.token in w.tokens && w.tokens[e.token].Write? && w.tokens[e.token].connId in w.conns ==>
            var phase := w.conns[w.tokens[e.token].connId].phase;
            phase.Writing? ==> e.result <= phase.total - phase.written)
  }

  /** A write completion with result <= 0. */
  predicate FailedWrite(w: Worker, e: Event) {
    e.Complete? && e.token in w.tokens && w.tokens[e.token].Write? && e.result <= 0
  }

  ghost predicate Initial(g: Config, w: Worker) {
    && |w.tokens| == 1 && (forall t :: t in w.tokens ==> w.tokens[t] == Accept && w.tokens.Keys == {t})
    && w.inflight == w.tokens.Keys
    && w.conns == map[] && w.traffic == map[]
    && |w.bufs| == g.poolSize && SameSize(w.bufs, g.bufferSize) && w.free == seq(g.poolSize, i => i)
    && w.inRing == seq(g.ringEntries, i => i) && w.held == {}
  }

  ghost predicate Run(g: Config, ws: seq<Worker>, es: seq<Event>) {
    && |ws| == |es| + 1 && Initial(g, ws[0])
    && forall i :: 0 <= i < |es| ==> Legal(g, ws[i], es[i]) && ws[i + 1] == Step(g, ws[i], es[i])
  }
}
