/** Input of a connection of the mio worker, over whole runs: which received bytes each request is processed on. A
    response that leaves bytes behind moves them to the front of the read buffer, but the fill level starts at 0 again
    once the response is written, so those bytes are never processed. */
module MioInput {
  import opened Base
  import opened Buffers
  import opened Connection
  import opened MioSpec
  import opened MioResponses

  /** An event with the bytes the socket delivered, how many of the bytes at hand the request used up when there is a
      response, and what processing left in the write buffer. */
  datatype Feed = Feed(e: Event, payload: Bytes, consumed: nat, out: Bytes)

  /** The worker with the bytes in its pool. */
  datatype Fed = Fed(w: Worker, bufs: seq<Bytes>)

  predicate Answers(e: Event) {
    e.Readable? && (e.outcome.Response? || e.outcome.LargeResponse?)
  }

  // ---------------------------------------------------------------- steps with bytes

  /** The read buffer after `handle_readable`: the bytes behind the filled ones, and with a response the bytes it left
      moved to the front. */
  function AfterRead(buf: Bytes, filled: nat, f: Feed): Bytes
    requires filled + |f.payload| <= |buf|
  {
    Taken(buf, filled, f.payload, Answers(f.e), f.consumed)
  }

  function Taken(buf: Bytes, filled: nat, payload: Bytes, answers: bool, consumed: nat): Bytes
    requires filled + |payload| <= |buf|
  {
    var total, b := filled + |payload|, Splice(buf, filled, payload);
    if answers && consumed < total then Splice(b, 0, b[consumed..total]) else b
  }

  /** The connection is sending from its write buffer. */
  predicate Plain(conn: Conn) {
    conn.state.Writing? && conn.state.bufIdx != CHAIN_MARKER
  }

  /** The socket takes bytes of such a response. */
  predicate SendsPlain(w: Worker, e: Event) {
    e.Writable? && e.c in w.conns && Plain(w.conns[e.c]) && e.result.Wrote?
  }

  ghost predicate Feeds(g: Config, l: Fed, f: Feed, l': Fed)
    requires g.bufferSize > 0
  {
    && Legal(g, l.w, f.e) && l'.w == Step(g, l.w, f.e)
    && |l'.bufs| == |l.bufs| && SameSize(l'.bufs, g.bufferSize)
    && (forall i: nat :: i < |l.bufs| && !MayWrite(l.w, f.e, i) ==> l'.bufs[i] == l.bufs[i])
    && (Processes(l.w, f.e) ==>
          var conn := l.w.conns[f.e.c];
          && |f.payload| == f.e.read.n && conn.state.filled + |f.payload| <= g.bufferSize
          && (conn.readBuf < |l.bufs| && |l.bufs[conn.readBuf]| == g.bufferSize ==>
                l'.bufs[conn.readBuf] == AfterRead(l.bufs[conn.readBuf], conn.state.filled, f))
          && |f.out| == g.bufferSize && (conn.writeBuf < |l.bufs| ==> l'.bufs[conn.writeBuf] == f.out)
          && (f.e.outcome.Response? ==> f.e.outcome.len <= g.bufferSize))
    && (SendsPlain(l.w, f.e) ==>
          f.e.result.n <= l.w.conns[f.e.c].state.total - l.w.conns[f.e.c].state.written)
  }

  ghost predicate FedRun(g: Config, ls: seq<Fed>, fs: seq<Feed>)
    requires g.bufferSize > 0
  {
    && |ls| == |fs| + 1
    && Initial(g, ls[0].w) && |ls[0].bufs| == g.poolSize && SameSize(ls[0].bufs, g.bufferSize)
    && forall i :: 0 <= i < |fs| ==> Feeds(g, ls[i], fs[i], ls[i + 1])
  }

  // ---------------------------------------------------------------- the account

  /** What a connection has received; from where on the next request will be processed; and up to where the requests
      so far have used the bytes they were given. */
  datatype Intake = Intake(received: Bytes, from: nat, due: nat)

  predicate InOrder(i: Intake) {
    i.due <= i.from <= |i.received|
  }

  const NOTHING := Intake([], 0, 0)

  /** One more read that left the connection open. */
  function Take(i: Intake, f: Feed): (r: Intake)
    requires InOrder(i)
    ensures InOrder(r)
  {
    var received := i.received + f.payload;
    if Answers(f.e) then Intake(received, |received|, i.due + Min(f.consumed, |received| - i.from))
    else i.(received := received)
  }

  /** The account at state `n` of the connection `c` that was accepted at event `k` - 1. */
  function IntakeAt(ls: seq<Fed>, fs: seq<Feed>, c: nat, k: nat, n: nat): (r: Intake)
    requires k <= n < |ls| == |fs| + 1
    ensures InOrder(r)
  {
    if n == k then NOTHING
    else
      var i, f := IntakeAt(ls, fs, c, k, n - 1), fs[n - 1];
      if Processes(ls[n - 1].w, f.e) && f.e.c == c then Take(i, f) else i
  }

  /** The connection holds exactly what it received from `from` on; while it writes there is nothing. */
  ghost predicate Holds(g: Config, l: Fed, c: nat, i: Intake) {
    && c in l.w.conns && l.w.conns[c].readBuf < |l.bufs| && InOrder(i)
    && var conn := l.w.conns[c];
       if conn.state.Writing? then i.from == |i.received|
       else
         && conn.state.filled == |i.received| - i.from && conn.state.filled <= |l.bufs[conn.readBuf]|
         && l.bufs[conn.readBuf][..conn.state.filled] == i.received[i.from..]
  }

  ghost predicate FedInv(g: Config, l: Fed) {
    Inv(g, l.w) && |l.bufs| == g.poolSize && SameSize(l.bufs, g.bufferSize)
  }

  /** A read that asks for more keeps the bytes in order; one that is answered leaves nothing to go on with. */
  lemma ProcessedHolds(g: Config, l: Fed, f: Feed, l': Fed, i: Intake)
    requires g.bufferSize > 0 && FedInv(g, l) && Feeds(g, l, f, l') && Processes(l.w, f.e)
    requires Holds(g, l, f.e.c, i) && f.e.c in l'.w.conns
    ensures Holds(g, l', f.e.c, Take(i, f))
  {
    hide Owned, ChainOf, Missing, Inv, Shape, MayWrite;
    var conn := l.w.conns[f.e.c];
    var buf, filled := l.bufs[conn.readBuf], conn.state.filled;
    if !Answers(f.e) {
      var total := filled + |f.payload|;
      assert AfterRead(buf, filled, f)[..total] == buf[..filled] + f.payload;
      assert (i.received + f.payload)[i.from..] == i.received[i.from..] + f.payload;
    }
  }

  /** Every other event of the connection itself: a write, or nothing. */
  lemma QuietHolds(g: Config, l: Fed, f: Feed, l': Fed, i: Intake)
    requires g.bufferSize > 0 && FedInv(g, l) && Feeds(g, l, f, l') && !Processes(l.w, f.e) && !f.e.Accept?
    requires Holds(g, l, f.e.c, i) && f.e.c in l'.w.conns
    ensures Holds(g, l', f.e.c, i)
  {
    hide Owned, ChainOf, Missing, Inv, Shape;
    assert l'.bufs == l.bufs;
  }

  lemma OtherHolds(g: Config, l: Fed, f: Feed, l': Fed, c: nat, i: Intake)
    requires g.bufferSize > 0 && FedInv(g, l) && Feeds(g, l, f, l') && Holds(g, l, c, i) && c != f.e.c
    ensures Holds(g, l', c, i)
  {
    OthersSame(g, l.w, f.e, c);
    assert l.w.conns[c].readBuf in Owned(l.w.conns[c]);
    OwnBuffer(g, l.w, f.e, c, l.w.conns[c].readBuf);
  }

  lemma FeedKeeps(g: Config, l: Fed, f: Feed, l': Fed)
    requires g.bufferSize > 0 && g.poolSize < CHAIN_MARKER && FedInv(g, l) && Feeds(g, l, f, l')
    ensures FedInv(g, l')
  {
    StepKeepsInv(g, l.w, f.e);
  }

  lemma {:induction false} FedRunInv(g: Config, ls: seq<Fed>, fs: seq<Feed>, n: nat)
    requires g.bufferSize > 0 && g.poolSize < CHAIN_MARKER && FedRun(g, ls, fs) && n < |ls|
    ensures FedInv(g, ls[n])
    decreases n
  {
    if n == 0 {
      StartsConserved(g, ls[0].w);
    } else {
      hide FedInv, Feeds, Initial;
      FedRunInv(g, ls, fs, n - 1);
      FeedKeeps(g, ls[n - 1], fs[n - 1], ls[n]);
    }
  }

  lemma StartsConserved(g: Config, w: Worker)
    requires Initial(g, w)
    ensures Inv(g, w)
  {
    assert forall i: nat :: Holders(w.conns, i) == 0;
  }

  /** A connection starts with an empty read buffer. */
  lemma NewHolds(g: Config, l: Fed, f: Feed, l': Fed, c: nat)
    requires g.bufferSize > 0 && g.poolSize < CHAIN_MARKER && FedInv(g, l) && Feeds(g, l, f, l')
    requires c !in l.w.conns && c in l'.w.conns
    ensures Holds(g, l', c, NOTHING)
  {
    FeedKeeps(g, l, f, l');
    OwnedInPool(g, l'.w, c);
    if c != f.e.c {
      OthersSame(g, l.w, f.e, c);
    }
    hide Owned, ChainOf, Missing, Inv, Shape;
  }

  // ---------------------------------------------------------------- whole runs

  /** Connection `c` was accepted at event `k` - 1 and lives from state `k` to state `n`. */
  ghost predicate Lives(ls: seq<Fed>, c: nat, k: nat, n: nat)
    requires 0 < k <= n < |ls|
  {
    c !in ls[k - 1].w.conns && forall j :: k <= j <= n ==> c in ls[j].w.conns
  }

  lemma FeedHolds(g: Config, l: Fed, f: Feed, l': Fed, c: nat, i: Intake)
    requires g.bufferSize > 0 && FedInv(g, l) && Feeds(g, l, f, l') && Holds(g, l, c, i) && c in l'.w.conns
    ensures Holds(g, l', c, if Processes(l.w, f.e) && f.e.c == c then Take(i, f) else i)
  {
    if c != f.e.c {
      OtherHolds(g, l, f, l', c, i);
    } else if Processes(l.w, f.e) {
      ProcessedHolds(g, l, f, l', i);
    } else {
      QuietHolds(g, l, f, l', i);
    }
  }

  /** On every run, for every connection that is reading: the bytes it holds are those received since the read that led
      to its last response, in order, whatever other connections did. */
  lemma {:induction false} HeldSinceResponse(g: Config, ls: seq<Fed>, fs: seq<Feed>, c: nat, k: nat, n: nat)
    requires g.bufferSize > 0 && g.poolSize < CHAIN_MARKER && FedRun(g, ls, fs)
    requires 0 < k <= n < |ls| && Lives(ls, c, k, n)
    ensures Holds(g, ls[n], c, IntakeAt(ls, fs, c, k, n))
    decreases n
  {
    hide FedInv, Feeds, Holds, Initial;
    FedRunInv(g, ls, fs, n - 1);
    if n == k {
      NewHolds(g, ls[n - 1], fs[n - 1], ls[n], c);
    } else {
      HeldSinceResponse(g, ls, fs, c, k, n - 1);
      FeedHolds(g, ls[n - 1], fs[n - 1], ls[n], c, IntakeAt(ls, fs, c, k, n - 1));
    }
  }

  /** Event `j` answers connection `c`. */
  predicate AnsweredAt(ls: seq<Fed>, fs: seq<Feed>, c: nat, j: nat)
    requires j < |fs| < |ls|
  {
    Processes(ls[j].w, fs[j].e) && fs[j].e.c == c && Answers(fs[j].e)
  }

  /** The bytes it leaves: at hand and not used up. */
  function LeftAt(ls: seq<Fed>, fs: seq<Feed>, c: nat, j: nat): nat
    requires j < |fs| < |ls| && AnsweredAt(ls, fs, c, j)
  {
    Max(ls[j].w.conns[c].state.filled + |fs[j].payload| - fs[j].consumed, 0)
  }

  /** All bytes left by the responses from state `k` to state `n`. */
  function Skipped(ls: seq<Fed>, fs: seq<Feed>, c: nat, k: nat, n: nat): nat
    requires k <= n <= |fs| < |ls|
  {
    if n == k then 0
    else Skipped(ls, fs, c, k, n - 1) + (if AnsweredAt(ls, fs, c, n - 1) then LeftAt(ls, fs, c, n - 1) else 0)
  }

  /** Every response used up all the bytes at hand. */
  ghost predicate NoneLeft(ls: seq<Fed>, fs: seq<Feed>, c: nat, k: nat, n: nat)
    requires k <= n <= |fs| < |ls|
  {
    forall j :: k <= j < n && AnsweredAt(ls, fs, c, j) ==> LeftAt(ls, fs, c, j) == 0
  }

  lemma {:induction false} NoneSkippedIff(ls: seq<Fed>, fs: seq<Feed>, c: nat, k: nat, n: nat)
    requires k <= n <= |fs| < |ls|
    ensures Skipped(ls, fs, c, k, n) == 0 <==> NoneLeft(ls, fs, c, k, n)
    decreases n
  {
    hide AnsweredAt, LeftAt;
    if n > k {
      NoneSkippedIff(ls, fs, c, k, n - 1);
    }
  }

  lemma TakeSkips(i: Intake, f: Feed, filled: nat)
    requires InOrder(i) && filled == |i.received| - i.from
    ensures var i' := Take(i, f);
            i'.from - i'.due == i.from - i.due + if Answers(f.e) then Max(filled + |f.payload| - f.consumed, 0) else 0
  {
  }

  lemma {:induction false} SkippedCount(g: Config, ls: seq<Fed>, fs: seq<Feed>, c: nat, k: nat, n: nat)
    requires g.bufferSize > 0 && g.poolSize < CHAIN_MARKER && FedRun(g, ls, fs)
    requires 0 < k <= n < |ls| && Lives(ls, c, k, n)
    ensures var i := IntakeAt(ls, fs, c, k, n); i.from == i.due + Skipped(ls, fs, c, k, n)
    decreases n
  {
    hide Feeds, Initial, Take;
    if n > k {
      SkippedCount(g, ls, fs, c, k, n - 1);
      HeldSinceResponse(g, ls, fs, c, k, n - 1);
      var i, f := IntakeAt(ls, fs, c, k, n - 1), fs[n - 1];
      if Processes(ls[n - 1].w, f.e) && f.e.c == c {
        TakeSkips(i, f, ls[n - 1].w.conns[c].state.filled);
      }
    }
  }

  /** On every run, for every connection that is reading: the bytes it holds are exactly the received bytes its
      requests have not used up if and only if every response so far used up all the bytes at hand. Otherwise the bytes
      left by those responses are skipped: no request is processed on them. */
  lemma NothingSkippedIff(g: Config, ls: seq<Fed>, fs: seq<Feed>, c: nat, k: nat, n: nat)
    requires g.bufferSize > 0 && g.poolSize < CHAIN_MARKER && FedRun(g, ls, fs)
    requires 0 < k <= n < |ls| && Lives(ls, c, k, n) && ls[n].w.conns[c].state.Reading?
    ensures var i, conn := IntakeAt(ls, fs, c, k, n), ls[n].w.conns[c];
            && i.from == i.due + Skipped(ls, fs, c, k, n)
            && conn.readBuf < |ls[n].bufs| && conn.state.filled <= |ls[n].bufs[conn.readBuf]|
            && var held := ls[n].bufs[conn.readBuf][..conn.state.filled];
              && held == i.received[i.from..]
              && (held == i.received[i.due..] <==> NoneLeft(ls, fs, c, k, n))
  {
    NoneSkippedIff(ls, fs, c, k, n);
    hide NoneLeft, Skipped, Feeds;
    HeldSinceResponse(g, ls, fs, c, k, n);
    SkippedCount(g, ls, fs, c, k, n);
  }

  // ---------------------------------------------------------------- it happens

  /** A connection is accepted and delivers `payload` in one read; the request uses up `consumed` bytes of it and is
      answered with `len` bytes, which are then written in one go. */
  function Story(payload: Bytes, consumed: nat, out: Bytes, len: nat): seq<Feed> {
    [Feed(Accept(0, [0, 1]), [], 0, []),
     Feed(Readable(0, ReadGot(|payload|), Response(len), [], true), payload, consumed, out),
     Feed(Writable(0, Wrote(len), true), [], 0, [])]
  }

  /** The only connection, with the first two buffers of the pool. */
  function Alone(w: Worker, state: DataState): Worker {
    Worker(w.free - multiset([0, 1]), map[0 := Conn(state, 0, 1, None, None)])
  }

  lemma StoryAccept(g: Config, w: Worker, bufs: seq<Bytes>, f: Feed)
    requires g.bufferSize > 0 && g.maxConnections > 0 && g.poolSize >= 2 && Initial(g, w)
    requires SameSize(bufs, g.bufferSize) && f.e == Accept(0, [0, 1])
    ensures Feeds(g, Fed(w, bufs), f, Fed(Alone(w, Reading(0)), bufs))
  {
    PairFree(g, w);
  }

  lemma StoryRead(g: Config, w: Worker, bufs: seq<Bytes>, f: Feed, len: nat)
    requires 0 < |f.payload| <= g.bufferSize && |bufs| == g.poolSize >= 2 && SameSize(bufs, g.bufferSize)
    requires f.e == Readable(0, ReadGot(|f.payload|), Response(len), [], true) && len <= g.bufferSize == |f.out|
    ensures Feeds(g, Fed(Alone(w, Reading(0)), bufs), f,
                  Fed(Alone(w, Writing(1, 0, len)), bufs[0 := AfterRead(bufs[0], 0, f)][1 := f.out]))
  {
    hide AfterRead, Step, Legal, Owned;
    StoryReadState(g, w, f.e, |f.payload|, len);
    ReadSize(bufs[0], 0, f);
  }

  lemma StoryReadState(g: Config, w: Worker, e: Event, n: nat, len: nat)
    requires g.bufferSize > 0 && e == Readable(0, ReadGot(n), Response(len), [], true)
    ensures var w0 := Alone(w, Reading(0));
            && Legal(g, w0, e) && Step(g, w0, e) == Alone(w, Writing(1, 0, len))
            && 0 in Owned(w0.conns[0]) && 1 in Owned(w0.conns[0])
  {
    hide Missing, Shape;
    assert Alone(w, Reading(0)).free + ChainOf(None) == Alone(w, Reading(0)).free;
  }

  lemma ReadSize(buf: Bytes, filled: nat, f: Feed)
    requires filled + |f.payload| <= |buf|
    ensures |AfterRead(buf, filled, f)| == |buf|
  {
  }

  lemma StoryWrite(g: Config, w: Worker, bufs: seq<Bytes>, f: Feed, len: nat)
    requires g.bufferSize > 0 && SameSize(bufs, g.bufferSize) && f.e == Writable(0, Wrote(len), true)
    ensures Feeds(g, Fed(Alone(w, Writing(1, 0, len)), bufs), f, Fed(Alone(w, Reading(0)), bufs))
  {
    assert Alone(w, Reading(0)).free + ChainOf(None) == Alone(w, Reading(0)).free;
  }

  /** Under every configuration with room for one connection, from every initial worker: that is a run, and when the
      request did not use up all of `payload` the rest of it is gone. */
  lemma PipelinedRequestSkipped(g: Config, w: Worker, bufs: seq<Bytes>, payload: Bytes, consumed: nat, out: Bytes,
                                len: nat)
    returns (ls: seq<Fed>)
    requires g.maxConnections > 0 && 2 <= g.poolSize < CHAIN_MARKER
    requires Initial(g, w) && |bufs| == g.poolSize && SameSize(bufs, g.bufferSize)
    requires consumed < |payload| <= g.bufferSize && len <= |out| == g.bufferSize
    ensures FedRun(g, ls, Story(payload, consumed, out, len)) && ls[0] == Fed(w, bufs)
    ensures Lives(ls, 0, 1, 3) && ls[3].w.conns[0].state == Reading(0)
    ensures var i := IntakeAt(ls, Story(payload, consumed, out, len), 0, 1, 3);
            i.received == payload && i.due == consumed && i.from == |payload|
  {
    var fs := Story(payload, consumed, out, len);
    var bufs' := bufs[0 := AfterRead(bufs[0], 0, fs[1])][1 := out];
    ls := [Fed(w, bufs), Fed(Alone(w, Reading(0)), bufs), Fed(Alone(w, Writing(1, 0, len)), bufs'),
           Fed(Alone(w, Reading(0)), bufs')];
    StoryAccept(g, w, bufs, fs[0]);
    StoryRead(g, w, bufs, fs[1], len);
    StoryWrite(g, w, bufs', fs[2], len);
    hide Feeds, Step, AfterRead;
    assert IntakeAt(ls, fs, 0, 1, 1) == NOTHING;
    assert [] + payload == payload;
    assert IntakeAt(ls, fs, 0, 1, 2) == Intake(payload, |payload|, consumed);
  }

  lemma PairFree(g: Config, w: Worker)
    requires Initial(g, w) && g.poolSize >= 2
    ensures |w.free| >= 2 && multiset([0, 1]) <= w.free
  {
    assert multiset([0, 1]) == multiset{0, 1};
    assert multiset{0, 1} <= w.free;
    assert w.free == (w.free - multiset{0, 1}) + multiset{0, 1};
  }
}
