/** What a failed write leads to: under every configuration some run reaches one, and every run that reaches its first
    one can go on to corrupt two connections. */
module UringDoubleFree {
  import opened Base
  import opened Buffers
  import opened Connection
  import opened UringSpec
  import opened UringTokens
  import opened UringBuffers
  import opened UringBounds

  // ---------------------------------------------------------------- continuing a run

  /** What every run keeps. */
  ghost predicate Sound(g: Config, w: Worker) {
    TokenInv(w) && Bounded(g, w) && RingInv(g, w)
  }

  lemma RunSound(g: Config, ws: seq<Worker>, es: seq<Event>, n: nat)
    requires Run(g, ws, es) && n < |ws|
    ensures Sound(g, ws[n])
  {
    RunTokens(g, ws, es, n);
    RunBounds(g, ws, es, n);
    RingConserved(g, ws, es, n);
  }

  lemma SoundStep(g: Config, w: Worker, e: Event)
    requires Sound(g, w) && Legal(g, w, e)
    ensures Sound(g, Step(g, w, e))
  {
    hide TokenInv, Bounded, RingInv, Step, Legal;
    StepKeepsTokens(g, w, e);
    StepKeepsBounds(g, w, e);
    StepKeepsRing(g, w, e);
  }

  ghost predicate Follows(g: Config, w: Worker, e: Event, w': Worker) {
    Legal(g, w, e) && w' == Step(g, w, e)
  }

  lemma Continue(g: Config, ws: seq<Worker>, es: seq<Event>, e: Event, w: Worker)
    requires Run(g, ws, es) && Follows(g, ws[|es|], e, w)
    ensures Run(g, ws + [w], es + [e])
  {
    hide Initial, Legal, Step;
  }

  /** A slab key that is not in use. */
  ghost function Vacant(s: set<nat>): (r: nat)
    ensures forall x :: x in s ==> x < r
  {
    if s == {} then 0
    else
      var x :| x in s;
      assert forall y :: y in s ==> y == x || y in s - {x};
      Max(x + 1, Vacant(s - {x}))
  }

  ghost function Keys(w: Worker): SlabKeys {
    SlabKeys(Vacant(w.tokens.Keys), Vacant(w.conns.Keys), Vacant(w.tokens.Keys) + 1)
  }

  // ---------------------------------------------------------------- single events, from any worker

  /** A fresh connection with its first read under token `t`. */
  ghost predicate Ready(w: Worker, c: nat, t: nat) {
    && c in w.conns && c in w.traffic && w.conns[c] == NEW_CONN && w.traffic[c] == NO_TRAFFIC
    && t in w.tokens && w.tokens[t] == Read(c)
  }

  /** The accept that is outstanding completes. */
  lemma AcceptLegal(g: Config, w: Worker) returns (e: Event)
    requires TokenInv(w)
    ensures e.Complete? && e.result == 1 && e.keys == Keys(w) && e.token in w.tokens && w.tokens[e.token] == Accept
    ensures Legal(g, w, e)
  {
    var tk, at :| Matched(w, tk, at);
    e := Complete(at, 1, None, [], NeedData, seq(g.bufferSize, _ => 0), Keys(w));
  }

  lemma AcceptStep(g: Config, w: Worker, e: Event)
    requires e.Complete? && e.result == 1 && e.keys == Keys(w) && e.token in w.tokens && w.tokens[e.token] == Accept
    requires |w.conns| < g.maxConnections
    ensures var w', c, t := Step(g, w, e), Keys(w).connId, Keys(w).readToken;
            && c !in w.conns && t !in w.tokens && t != Keys(w).token && Keys(w).token !in w.tokens
            && w'.conns == w.conns[c := NEW_CONN] && w'.traffic == w.traffic[c := NO_TRAFFIC]
            && w'.tokens == (w.tokens - {e.token})[Keys(w).token := Accept][t := Read(c)]
            && w'.free == w.free && w'.bufs == w.bufs && w'.inRing == w.inRing
  {
  }

  lemma Accepts(g: Config, w: Worker, d: nat, u: nat) returns (e: Event, w': Worker, c: nat, t: nat)
    requires Sound(g, w) && |w.conns| < g.maxConnections
    ensures Follows(g, w, e, w') && Sound(g, w') && !FailedWrite(w, e)
    ensures c !in w.conns && t !in w.tokens && Ready(w', c, t)
    ensures |w'.conns| == |w.conns| + 1 && w'.conns.Keys == w.conns.Keys + {c}
    ensures Ready(w, d, u) ==> Ready(w', d, u)
    ensures w'.free == w.free && w'.bufs == w.bufs && w'.inRing == w.inRing
  {
    hide TokenInv, Bounded, RingInv, Step, Legal, Keys;
    e := AcceptLegal(g, w);
    w', c, t := Step(g, w, e), Keys(w).connId, Keys(w).readToken;
    SoundStep(g, w, e);
    AcceptStep(g, w, e);
    OneMore(w.conns, c);
  }

  lemma OneMore(conns: map<nat, Conn>, c: nat)
    requires c !in conns
    ensures |conns[c := NEW_CONN]| == |conns| + 1
  {
    assert conns[c := NEW_CONN].Keys == conns.Keys + {c};
  }

  /** The kernel picks a buffer for a receive; everything else stays. */
  lemma Selects(g: Config, w: Worker) returns (w': Worker, bid: nat)
    requires Sound(g, w) && w.inRing != []
    ensures Follows(g, w, Select, w') && Sound(g, w')
    ensures bid in w'.held && w' == w.(inRing := w'.inRing, held := w'.held)
  {
    w', bid := Step(g, w, Select), w.inRing[0];
    SoundStep(g, w, Select);
  }

  lemma OverwriteWhole(buf: Bytes, x: Bytes)
    requires |x| <= |buf|
    ensures |Overwrite(buf, 0, x)| == |buf| && Slice(Overwrite(buf, 0, x), 0, |x|) == x
  {
  }

  /** A completed receive of `x` by a connection that holds no other input. */
  ghost predicate Receives(g: Config, w: Worker, c: nat, e: Event, x: Bytes) {
    && e.Complete? && e.token in w.tokens && w.tokens[e.token] == Read(c)
    && c in w.conns && c in w.traffic && w.conns[c] == Conn(Reading(0), w.conns[c].readBuf, 0)
    && e.result > 0 && e.bid.Some? && e.payload == x && |x| <= g.bufferSize
  }

  /** The worker once `x` is copied into buffer `a`. */
  function Copied(w: Worker, c: nat, e: Event, a: nat, free: seq<nat>, x: Bytes): Worker
    requires e.Complete? && e.bid.Some? && c in w.conns && c in w.traffic
  {
    Recycle(w.(inflight := w.inflight - {e.token}, tokens := w.tokens - {e.token}), e.bid.value)
    .(free := free, bufs := if a < |w.bufs| then w.bufs[a := Overwrite(w.bufs[a], 0, x)] else w.bufs,
      conns := w.conns[c := Conn(Reading(0), Some(a), |x|)],
      traffic := w.traffic[c := w.traffic[c].(received := w.traffic[c].received + x)])
  }

  lemma ReceiveStep(g: Config, w: Worker, c: nat, e: Event, x: Bytes, a: nat, free: seq<nat>)
    requires Receives(g, w, c, e, x) && a < |w.bufs| && |w.bufs[a]| == g.bufferSize
    requires if w.conns[c].readBuf.Some? then w.conns[c].readBuf == Some(a) && free == w.free else w.free == free + [a]
    ensures Step(g, w, e) == Respond(g, Copied(w, c, e, a, free, x), c, e.outcome, e.out, e.keys.token)
  {
    hide Respond, Overwrite;
    var w0 := Recycle(w.(inflight := w.inflight - {e.token}, tokens := w.tokens - {e.token}), e.bid.value);
    var w1 := Accumulator(w0, c);
    var conn, full := Conn(Reading(0), Some(a), 0), Conn(Reading(0), Some(a), |x|);
    assert w1.conns == w.conns[c := conn] && w1.free == free;
    Twice(w.conns, c, conn, full);
    assert CopyIn(w1, c, x) == Copied(w, c, e, a, free, x);
  }

  /** The whole of `x` processed and answered from buffer `i`. */
  lemma RespondAll(g: Config, w: Worker, c: nat, a: nat, i: nat, free: seq<nat>, x: Bytes, reply: Bytes, len: nat,
                   token: nat)
    requires c in w.conns && c in w.traffic && w.conns[c] == Conn(Reading(0), Some(a), |x|)
    requires a < |w.bufs| && i < |w.bufs| && a != i && w.free == free + [i] && Held(w, w.conns[c]) == x
    ensures var t := w.traffic[c];
            Respond(g, w, c, Response(|x|, len), reply, token)
            == w.(bufs := w.bufs[i := reply], free := free, conns := w.conns[c := Conn(Writing(i, 0, len), Some(a), 0)],
                  traffic := w.traffic[c := t.(consumed := t.consumed + x,
                                               responses := t.responses + Slice(reply, 0, len))],
                  tokens := w.tokens[token := Write(c, i)], inflight := w.inflight + {token})
  {
    assert Slice(x, 0, |x|) == x;
    hide Slice, Held, Overwrite;
    var w1 := SetBuf(w, i, reply).(free := free);
    var w2 := Consume(w1, c, |x|, x);
    var mid, last := Conn(Reading(0), Some(a), 0), Conn(Writing(i, 0, len), Some(a), 0);
    Twice(w.conns, c, mid, last);
    var t := w.traffic[c];
    var t1 := t.(consumed := t.consumed + x);
    var t2 := t1.(responses := t.responses + Slice(reply, 0, len));
    Twice(w.traffic, c, t1, t2);
    assert w.free[..|w.free| - 1] == free && w.free[|w.free| - 1] == i;
  }

  /** The event of a receive. */
  ghost function Receive(g: Config, w: Worker, t: nat, bid: nat, x: Bytes, outcome: Outcome, out: Bytes): Event {
    Complete(t, |x|, Some(bid), x, outcome, out, Keys(w))
  }

  lemma ReceiveLegal(g: Config, w: Worker, c: nat, t: nat, bid: nat, x: Bytes, outcome: Outcome, out: Bytes)
    requires Sound(g, w) && t in w.tokens && w.tokens[t] == Read(c) && bid in w.held
    requires x != [] && |x| <= g.bufferSize && |out| == g.bufferSize
    requires outcome.Response? ==> outcome.len <= g.bufferSize
    ensures Legal(g, w, Receive(g, w, t, bid, x, outcome, out))
    ensures !FailedWrite(w, Receive(g, w, t, bid, x, outcome, out))
    ensures Keys(w).token !in w.tokens
  {
    InflightAll(w);
  }

  lemma InflightAll(w: Worker)
    requires TokenInv(w)
    ensures w.inflight == w.tokens.Keys
  {
  }

  /** A request of a connection without accumulated input, received whole and answered. */
  lemma Answered(g: Config, w: Worker, c: nat, t: nat, bid: nat, a: nat, i: nat, free: seq<nat>, x: Bytes,
                 reply: Bytes, len: nat)
    returns (e: Event, w': Worker)
    requires Sound(g, w) && t in w.tokens && w.tokens[t] == Read(c) && bid in w.held
    requires c in w.conns && c in w.traffic && w.conns[c] == Conn(Reading(0), w.conns[c].readBuf, 0)
    requires if w.conns[c].readBuf.Some? then w.conns[c].readBuf == Some(a) && w.free == free + [i]
             else w.free == free + [i] + [a]
    requires a != i && x != [] && |x| <= g.bufferSize && |reply| == g.bufferSize && len <= g.bufferSize
    ensures Follows(g, w, e, w') && Sound(g, w') && !FailedWrite(w, e)
    ensures e == Receive(g, w, t, bid, x, Response(|x|, len), reply)
    ensures var tr := w.traffic[c];
            && Keys(w).token !in w.tokens && w'.tokens == (w.tokens - {t})[Keys(w).token := Write(c, i)]
            && w'.conns == w.conns[c := Conn(Writing(i, 0, len), Some(a), 0)] && w'.free == free
            && w'.traffic == w.traffic[c := Traffic(tr.received + x, tr.consumed + x,
                                                    tr.responses + Slice(reply, 0, len), tr.sent)]
            && a < |w.bufs| && i < |w.bufs| && w'.bufs == w.bufs[a := Overwrite(w.bufs[a], 0, x)][i := reply]
            && w'.inRing == w.inRing + [bid]
  {
    var outcome := Response(|x|, len);
    e := Receive(g, w, t, bid, x, outcome, reply);
    w' := Step(g, w, e);
    ReceiveLegal(g, w, c, t, bid, x, outcome, reply);
    SoundStep(g, w, e);
    PoolIndices(g, w, c);
    assert w.free[|w.free| - 1] < |w.bufs| && w.free[|free|] == i;
    hide Sound, Legal, Step, Overwrite, Slice;
    AnsweredStep(g, w, c, e, a, i, free, x, reply, len);
  }

  lemma AnsweredStep(g: Config, w: Worker, c: nat, e: Event, a: nat, i: nat, free: seq<nat>, x: Bytes, reply: Bytes,
                     len: nat)
    requires Receives(g, w, c, e, x) && e.outcome == Response(|x|, len) && e.out == reply
    requires if w.conns[c].readBuf.Some? then w.conns[c].readBuf == Some(a) && w.free == free + [i]
             else w.free == free + [i] + [a]
    requires a != i && a < |w.bufs| && i < |w.bufs| && |w.bufs[a]| == g.bufferSize
    ensures var tr := w.traffic[c];
            Step(g, w, e)
            == Worker((w.tokens - {e.token})[e.keys.token := Write(c, i)],
                      w.conns[c := Conn(Writing(i, 0, len), Some(a), 0)],
                      w.bufs[a := Overwrite(w.bufs[a], 0, x)][i := reply], free,
                      w.inRing + [e.bid.value], w.held - {e.bid.value}, w.inflight - {e.token} + {e.keys.token},
                      w.traffic[c := Traffic(tr.received + x, tr.consumed + x,
                                             tr.responses + Slice(reply, 0, len), tr.sent)])
  {
    var mid := if w.conns[c].readBuf.Some? then w.free else free + [i];
    hide Step, Overwrite, Slice, Respond;
    ReceiveStep(g, w, c, e, x, a, mid);
    var w1 := Copied(w, c, e, a, mid, x);
    OverwriteWhole(w.bufs[a], x);
    RespondAll(g, w1, c, a, i, free, x, reply, len, e.keys.token);
    var full, last := Conn(Reading(0), Some(a), |x|), Conn(Writing(i, 0, len), Some(a), 0);
    var tr := w.traffic[c];
    var t1 := tr.(received := tr.received + x);
    var t2 := t1.(consumed := tr.consumed + x, responses := tr.responses + Slice(reply, 0, len));
    Twice(w.conns, c, full, last);
    Twice(w.traffic, c, t1, t2);
  }

  lemma Twice<T>(m: map<nat, T>, c: nat, x: T, y: T)
    ensures m[c := x][c := y] == m[c := y]
  {
  }

  lemma PoolIndices(g: Config, w: Worker, c: nat)
    requires Bounded(g, w) && c in w.conns
    ensures |w.bufs| == g.poolSize && SameSize(w.bufs, g.bufferSize)
    ensures forall k :: 0 <= k < |w.free| ==> w.free[k] < |w.bufs|
    ensures w.conns[c].readBuf.Some? ==> w.conns[c].readBuf.value < |w.bufs|
  {
    assert ConnBounded(g, w.conns[c]);
  }

  /** The start of a request, received by a fresh connection: it stays accumulated. */
  lemma Waits(g: Config, w: Worker, c: nat, t: nat, bid: nat, a: nat, i: nat, free: seq<nat>, x: Bytes)
    returns (e: Event, w': Worker)
    requires Sound(g, w) && Ready(w, c, t) && bid in w.held && w.free == free + [i] + [a] && a != i
    requires x != [] && |x| <= g.bufferSize
    ensures Follows(g, w, e, w') && Sound(g, w') && !FailedWrite(w, e)
    ensures && Keys(w).token !in w.tokens && w'.tokens == (w.tokens - {t})[Keys(w).token := Read(c)]
            && w'.conns == w.conns[c := Conn(Reading(0), Some(a), |x|)] && w'.free == free + [i]
            && w'.traffic == w.traffic[c := Traffic(x, [], [], [])]
            && a < |w.bufs| && w'.bufs == w.bufs[a := Overwrite(w.bufs[a], 0, x)]
            && w'.inRing == w.inRing + [bid]
  {
    PoolIndices(g, w, c);
    assert w.free[|w.free| - 1] == a && w.free[|w.free| - 2] == i;
    var out := w.bufs[i];
    e := Receive(g, w, t, bid, x, NeedData, out);
    w' := Step(g, w, e);
    ReceiveLegal(g, w, c, t, bid, x, NeedData, out);
    SoundStep(g, w, e);
    hide Sound, Legal, Step, Keys;
    WaitsStep(g, w, c, e, x, a, i, free);
  }

  lemma WaitsStep(g: Config, w: Worker, c: nat, e: Event, x: Bytes, a: nat, i: nat, free: seq<nat>)
    requires Receives(g, w, c, e, x) && w.conns[c] == NEW_CONN && w.traffic[c] == NO_TRAFFIC && e.outcome.NeedData?
    requires w.free == free + [i] + [a] && a != i && a < |w.bufs| && i < |w.bufs| && e.out == w.bufs[i]
    requires |w.bufs[a]| == g.bufferSize
    ensures Step(g, w, e)
            == Worker((w.tokens - {e.token})[e.keys.token := Read(c)], w.conns[c := Conn(Reading(0), Some(a), |x|)],
                      w.bufs[a := Overwrite(w.bufs[a], 0, x)], free + [i],
                      w.inRing + [e.bid.value], w.held - {e.bid.value}, w.inflight - {e.token} + {e.keys.token},
                      w.traffic[c := Traffic(x, [], [], [])])
  {
    hide Step, Overwrite, Respond;
    ReceiveStep(g, w, c, e, x, a, free + [i]);
    var w1 := Copied(w, c, e, a, free + [i], x);
    RespondWaits(g, w1, c, i, free, e.out, e.keys.token);
    assert NO_TRAFFIC.received + x == x;
  }

  lemma RespondWaits(g: Config, w: Worker, c: nat, i: nat, free: seq<nat>, out: Bytes, token: nat)
    requires c in w.conns && c in w.traffic && w.conns[c].readBuf.Some?
    requires w.free == free + [i] && i < |w.bufs| && w.bufs[i] == out
    ensures Respond(g, w, c, NeedData, out, token)
            == w.(tokens := w.tokens[token := Read(c)], inflight := w.inflight + {token})
  {
    assert w.bufs[i := out] == w.bufs;
    assert w.free[..|w.free| - 1] == free && w.free[|w.free| - 1] == i;
  }

  /** A whole response sent. */
  lemma Sent(g: Config, w: Worker, c: nat, t: nat, i: nat, len: nat) returns (e: Event, w': Worker)
    requires Sound(g, w) && t in w.tokens && w.tokens[t] == Write(c, i)
    requires c in w.conns && c in w.traffic && w.conns[c].phase == Writing(i, 0, len) && len > 0
    ensures Follows(g, w, e, w') && Sound(g, w') && !FailedWrite(w, e)
    ensures var tr := w.traffic[c];
            && Keys(w).token !in w.tokens && w'.tokens == (w.tokens - {t})[Keys(w).token := Read(c)]
            && w'.conns == w.conns[c := w.conns[c].(phase := Reading(0))] && w'.free == w.free + [i]
            && w'.traffic == w.traffic[c := tr.(sent := tr.sent + Slice(BufAt(w, i), 0, len))]
            && w'.bufs == w.bufs && w'.inRing == w.inRing
  {
    e := Complete(t, len, None, [], NeedData, seq(g.bufferSize, _ => 0), Keys(w));
    w' := Step(g, w, e);
    InflightAll(w);
    assert Legal(g, w, e);
    hide TokenInv, Bounded, RingInv, Legal;
    SoundStep(g, w, e);
  }

  // ---------------------------------------------------------------- after a failed write

  /** What two connections do next: one sends `first` and is answered `reply`, of which `len` bytes are to be sent; the
      other sends `second`, the start of a request; the one sends `third` and is answered `reply2`. */
  datatype Script = Script(first: Bytes, second: Bytes, third: Bytes, reply: Bytes, len: nat, reply2: Bytes)

  /** Everything fits a buffer, and both replies differ from `second` in their first byte. */
  predicate Playable(g: Config, x: Script) {
    && 0 < |x.first| <= g.bufferSize && 0 < |x.second| <= g.bufferSize && 0 < |x.third| <= g.bufferSize
    && |x.reply| == |x.reply2| == g.bufferSize && 0 < x.len <= g.bufferSize
    && x.reply[0] != x.second[0] && x.reply2[0] != x.second[0]
  }

  /** The free list ends with `b` twice, then `r`. */
  ghost predicate DoublyFree(g: Config, w: Worker, f: seq<nat>, b: nat, r: nat) {
    Sound(g, w) && w.free == f + [b] + [b] + [r] && f != [] && b !in f && b != r && w.inRing != []
  }

  /** Connection `d` is being answered from buffer `b` and accumulates in `r`. */
  ghost predicate Answering(w: Worker, x: Script, b: nat, r: nat, d: nat, t: nat) {
    && d in w.conns && d in w.traffic && w.conns[d] == Conn(Writing(b, 0, x.len), Some(r), 0)
    && w.traffic[d] == Traffic(x.first, x.first, Slice(x.reply, 0, x.len), [])
    && t in w.tokens && w.tokens[t] == Write(d, b) && b < |w.bufs|
  }

  /** Connection `d` has accumulated `second` in buffer `b`. */
  ghost predicate Holding(w: Worker, x: Script, b: nat, d: nat) {
    && d in w.conns && d in w.traffic && w.conns[d] == Conn(Reading(0), Some(b), |x.second|)
    && w.traffic[d] == Traffic(x.second, [], [], []) && b < |w.bufs|
  }

  lemma TwoAccepts(g: Config, w: Worker, f: seq<nat>, b: nat, r: nat)
    returns (e1: Event, w1: Worker, e2: Event, w2: Worker, d1: nat, t1: nat, d2: nat, t2: nat)
    requires DoublyFree(g, w, f, b, r) && |w.conns| + 2 <= g.maxConnections
    ensures Follows(g, w, e1, w1) && Follows(g, w1, e2, w2) && DoublyFree(g, w2, f, b, r)
    ensures d1 != d2 && t1 != t2 && Ready(w2, d1, t1) && Ready(w2, d2, t2)
  {
    hide Sound, Follows, FailedWrite;
    e1, w1, d1, t1 := Accepts(g, w, 0, 0);
    e2, w2, d2, t2 := Accepts(g, w1, d1, t1);
  }

  /** The first connection takes `r` to accumulate and `b` to answer from; `b` is still free once. */
  lemma FirstAnswered(g: Config, w: Worker, x: Script, f: seq<nat>, b: nat, r: nat, d1: nat, t1: nat, d2: nat, t2: nat)
    returns (w1: Worker, e: Event, w2: Worker, t: nat)
    requires DoublyFree(g, w, f, b, r) && Playable(g, x)
    requires d1 != d2 && t1 != t2 && Ready(w, d1, t1) && Ready(w, d2, t2)
    ensures Follows(g, w, Select, w1) && Follows(g, w1, e, w2) && Sound(g, w2)
    ensures w2.free == f + [b] && w2.inRing != [] && Answering(w2, x, b, r, d1, t) && w2.bufs[b] == x.reply
    ensures Ready(w2, d2, t2) && t != t2
  {
    hide Sound, Follows, FailedWrite, Slice, Overwrite, Keys;
    var bid;
    w1, bid := Selects(g, w);
    e, w2 := Answered(g, w1, d1, t1, bid, r, b, f + [b], x.first, x.reply, x.len);
    t := Keys(w1).token;
    EmptyTraffic(x.first);
    EmptyTraffic(Slice(x.reply, 0, x.len));
  }

  lemma EmptyTraffic(x: Bytes)
    ensures NO_TRAFFIC.received + x == x && NO_TRAFFIC.consumed + x == x && NO_TRAFFIC.responses + x == x
    ensures NO_TRAFFIC.sent + x == x
  {
  }

  /** The second connection takes `b` to accumulate, while it is being written out for the first. */
  lemma SecondWaits(g: Config, w: Worker, x: Script, f: seq<nat>, b: nat, r: nat, d1: nat, t: nat, d2: nat, t2: nat)
    returns (w1: Worker, e: Event, w2: Worker)
    requires Sound(g, w) && Playable(g, x) && w.free == f + [b] && f != [] && b !in f && w.inRing != []
    requires d1 != d2 && t != t2 && Answering(w, x, b, r, d1, t) && Ready(w, d2, t2) && w.bufs[b] == x.reply
    ensures Follows(g, w, Select, w1) && Follows(g, w1, e, w2) && Sound(g, w2)
    ensures w2.free == f && w2.inRing != [] && Answering(w2, x, b, r, d1, t) && Holding(w2, x, b, d2)
    ensures w2.bufs[b] == Overwrite(x.reply, 0, x.second)
  {
    hide Sound, Follows, FailedWrite, Slice, Overwrite, Keys;
    var bid;
    w1, bid := Selects(g, w);
    var i, rest := f[|f| - 1], f[..|f| - 1];
    assert f == rest + [i] && i in f;
    e, w2 := Waits(g, w1, d2, t2, bid, b, i, rest, x.second);
  }

  lemma FirstSent(g: Config, w: Worker, x: Script, f: seq<nat>, b: nat, r: nat, d1: nat, t: nat, d2: nat)
    returns (e: Event, w': Worker, t': nat)
    requires Sound(g, w) && Playable(g, x) && w.free == f && w.inRing != [] && d1 != d2
    requires Answering(w, x, b, r, d1, t) && Holding(w, x, b, d2) && w.bufs[b] == Overwrite(x.reply, 0, x.second)
    ensures Follows(g, w, e, w') && Sound(g, w') && Holding(w', x, b, d2)
    ensures w'.free == f + [b] && w'.inRing != [] && t' in w'.tokens && w'.tokens[t'] == Read(d1)
    ensures d1 in w'.conns && d1 in w'.traffic && w'.conns[d1] == Conn(Reading(0), Some(r), 0)
    ensures !(w'.traffic[d1].sent <= w'.traffic[d1].responses)
  {
    hide Sound, Follows, FailedWrite, Keys;
    e, w' := Sent(g, w, d1, t, b, x.len);
    t' := Keys(w).token;
    FirstBytes(x.reply, x.second, x.len);
    hide Slice, Overwrite;
    EmptyTraffic(Slice(Overwrite(x.reply, 0, x.second), 0, x.len));
  }

  lemma FirstBytes(reply: Bytes, second: Bytes, len: nat)
    requires 0 < |second| <= |reply| && 0 < len <= |reply| && reply[0] != second[0]
    ensures !(Slice(Overwrite(reply, 0, second), 0, len) <= Slice(reply, 0, len))
  {
    var a, b := Slice(Overwrite(reply, 0, second), 0, len), Slice(reply, 0, len);
    assert a[0] == second[0] && b[0] == reply[0];
  }

  /** The next reply to the first connection overwrites what the second has received. */
  lemma SecondOverwritten(g: Config, w: Worker, x: Script, f: seq<nat>, b: nat, r: nat, d1: nat, t: nat, d2: nat)
    returns (w1: Worker, e: Event, w2: Worker)
    requires Sound(g, w) && Playable(g, x) && w.free == f + [b] && w.inRing != [] && d1 != d2 && b != r
    requires Holding(w, x, b, d2) && t in w.tokens && w.tokens[t] == Read(d1)
    requires d1 in w.conns && d1 in w.traffic && w.conns[d1] == Conn(Reading(0), Some(r), 0)
    ensures Follows(g, w, Select, w1) && Follows(g, w1, e, w2)
    ensures d2 in w2.conns && d2 in w2.traffic
    ensures w2.traffic[d2].received != w2.traffic[d2].consumed + Held(w2, w2.conns[d2])
  {
    hide Sound, Follows, FailedWrite, Slice, Overwrite, Keys;
    var bid;
    w1, bid := Selects(g, w);
    e, w2 := Answered(g, w1, d1, t, bid, r, b, f, x.third, x.reply2, x.len);
    SliceHead(x.reply2, |x.second|);
    assert Held(w2, w2.conns[d2]) == Slice(x.reply2, 0, |x.second|);
    EmptyTraffic(Slice(x.reply2, 0, |x.second|));
  }

  lemma SliceHead(buf: Bytes, n: nat)
    requires 0 < n <= |buf|
    ensures |Slice(buf, 0, n)| == n && Slice(buf, 0, n)[0] == buf[0]
  {
  }

  /** The same connection's buffers end the free list after a first failed write. */
  lemma FirstFailure(g: Config, w: Worker, e: Event, c: nat)
    returns (f: seq<nat>, b: nat, r: nat)
    requires BufferInv(g, w) && Sound(g, w) && Legal(g, w, e) && FailedWrite(w, e)
    requires w.tokens[e.token] == Write(c, w.tokens[e.token].bufIdx) && c in w.conns && w.conns[c].readBuf.Some?
    requires w.inRing != [] && |w.free| >= 1
    ensures DoublyFree(g, Step(g, w, e), f, b, r) && Step(g, w, e).conns == w.conns - {c} && f == w.free
  {
    hide BufferInv, TokenInv, Bounded, RingInv, Step, Legal;
    f, b, r := w.free, w.tokens[e.token].bufIdx, w.conns[c].readBuf.value;
    CompletionFindsItsConnection(g, w, e);
    OwnBuffers(g, w, c);
    FailedWriteEffect(g, w, e, c);
    NoRecycling(g, w, e);
    SoundStep(g, w, e);
  }

  lemma OwnBuffers(g: Config, w: Worker, c: nat)
    requires BufferInv(g, w) && c in w.conns && w.conns[c].phase.Writing? && w.conns[c].readBuf.Some?
    ensures w.conns[c].phase.bufIdx !in w.free && w.conns[c].phase.bufIdx != w.conns[c].readBuf.value
  {
    var own :| Owned(g, w, own);
    assert own[w.conns[c].phase.bufIdx] == Out(c) && own[w.conns[c].readBuf.value] == Accum(c);
  }

  /** Consecutive workers, from any one on. */
  ghost predicate Path(g: Config, vs: seq<Worker>, es: seq<Event>) {
    |vs| == |es| + 1 && forall i :: 0 <= i < |es| ==> Follows(g, vs[i], es[i], vs[i + 1])
  }

  lemma RunOn(g: Config, ws: seq<Worker>, es: seq<Event>, vs: seq<Worker>, more: seq<Event>)
    requires Run(g, ws, es) && Path(g, vs, more) && vs[0] == ws[|es|]
    ensures Run(g, ws[..|es|] + vs, es + more)
  {
    hide Initial, Legal, Step;
    var ws', es' := ws[..|es|] + vs, es + more;
    forall i | 0 <= i < |es'|
      ensures Legal(g, ws'[i], es'[i]) && ws'[i + 1] == Step(g, ws'[i], es'[i])
    {
      if i >= |es| {
        assert Follows(g, vs[i - |es|], more[i - |es|], vs[i - |es| + 1]);
      }
    }
    assert es != [] ==> ws'[0] == ws[0];
  }

  lemma PathLength(g: Config, vs: seq<Worker>, es: seq<Event>)
    requires Path(g, vs, es)
    ensures |vs| == |es| + 1
  {
  }

  /** What the harm looks like, counted from a state whose free list holds an index twice. */
  ghost predicate Harm(vs: seq<Worker>, d1: nat, d2: nat, b: nat) {
    && |vs| == 10 && d1 != d2 && Uses(vs[6], d1, b) && Uses(vs[6], d2, b)
    && d1 in vs[7].traffic && !(vs[7].traffic[d1].sent <= vs[7].traffic[d1].responses)
    && d2 in vs[9].conns && d2 in vs[9].traffic
    && vs[9].traffic[d2].received != vs[9].traffic[d2].consumed + Held(vs[9], vs[9].conns[d2])
  }

  lemma DoubleFreeHarms(g: Config, w: Worker, f: seq<nat>, b: nat, r: nat, x: Script)
    returns (vs: seq<Worker>, es: seq<Event>, d1: nat, d2: nat)
    requires DoublyFree(g, w, f, b, r) && |w.conns| + 2 <= g.maxConnections && Playable(g, x)
    ensures Path(g, vs, es) && vs[0] == w && |es| == 9 && Harm(vs, d1, d2, b)
  {
    hide Sound, Follows, Held, Playable, Slice, Overwrite, Path;
    var e1, w1, e2, w2, t1, t2;
    e1, w1, e2, w2, d1, t1, d2, t2 := TwoAccepts(g, w, f, b, r);
    var w3, e4, w4, t := FirstAnswered(g, w2, x, f, b, r, d1, t1, d2, t2);
    var w5, e6, w6 := SecondWaits(g, w4, x, f, b, r, d1, t, d2, t2);
    var e7, w7, t' := FirstSent(g, w6, x, f, b, r, d1, t, d2);
    var w8, e9, w9 := SecondOverwritten(g, w7, x, f, b, r, d1, t', d2);
    hide DoublyFree, Answering, Holding, Ready;
    vs, es := [w, w1, w2, w3, w4, w5, w6, w7, w8, w9], [e1, e2, Select, e4, Select, e6, e7, Select, e9];
    PathOfNine(g, vs, es);
  }

  lemma PathOfNine(g: Config, vs: seq<Worker>, es: seq<Event>)
    requires |vs| == 10 && |es| == 9
    requires Follows(g, vs[0], es[0], vs[1]) && Follows(g, vs[1], es[1], vs[2]) && Follows(g, vs[2], es[2], vs[3])
    requires Follows(g, vs[3], es[3], vs[4]) && Follows(g, vs[4], es[4], vs[5]) && Follows(g, vs[5], es[5], vs[6])
    requires Follows(g, vs[6], es[6], vs[7]) && Follows(g, vs[7], es[7], vs[8]) && Follows(g, vs[8], es[8], vs[9])
    ensures Path(g, vs, es)
  {
    hide Follows;
  }

  /** From the first failed write of any run, of a connection that has an accumulation buffer, with a buffer free, a
      provided buffer in the ring and room for one more connection than before, nine further events corrupt two
      connections. After six of them both use one buffer; after seven the first has sent bytes that are not its
      response; after nine the second holds bytes that it did not receive. */
  lemma FailedWriteHarms(g: Config, ws: seq<Worker>, es: seq<Event>, c: nat, x: Script)
    returns (ws': seq<Worker>, es': seq<Event>, d1: nat, d2: nat, b: nat)
    requires Run(g, ws, es) && es != [] && Playable(g, x)
    requires var w, e := ws[|es| - 1], es[|es| - 1];
             && FailedWrite(w, e) && (forall j :: 0 <= j < |es| - 1 ==> !FailedWrite(ws[j], es[j]))
             && w.tokens[e.token] == Write(c, w.tokens[e.token].bufIdx) && c in w.conns && w.conns[c].readBuf.Some?
             && w.inRing != [] && w.free != [] && |w.conns| + 1 <= g.maxConnections
    ensures Run(g, ws', es') && |es'| == |es| + 9 && ws <= ws' && es <= es' && Harm(ws'[|es|..], d1, d2, b)
  {
    hide Run, Step, Legal, Playable, Harm, Path, BufferInv, Sound, FailedWrite, DoublyFree;
    var n := |es|;
    RunLength(g, ws, es);
    RunStep(g, ws, es, n - 1);
    RunSound(g, ws, es, n - 1);
    RunBuffers(g, ws, es, n - 1);
    var f, r;
    f, b, r := FirstFailure(g, ws[n - 1], es[n - 1], c);
    assert ws[n].conns.Keys == ws[n - 1].conns.Keys - {c};
    var vs, more;
    vs, more, d1, d2 := DoubleFreeHarms(g, ws[n], f, b, r, x);
    RunOn(g, ws, es, vs, more);
    ws', es' := ws[..n] + vs, es + more;
    PathLength(g, vs, more);
    assert ws'[n..] == vs && ws == ws[..n] + [vs[0]];
  }

  // ---------------------------------------------------------------- a failed write is reached

  /** A request answered with nothing, as one with `noreply` is, completes its empty write with 0. */
  lemma FailedWriteReached(g: Config, w0: Worker, request: Bytes, out: Bytes)
    returns (ws: seq<Worker>, es: seq<Event>, c: nat)
    requires Initial(g, w0) && g.poolSize >= 3 && g.ringEntries >= 1 && g.maxConnections >= 2
    requires 0 < |request| <= g.bufferSize && |out| == g.bufferSize
    ensures Run(g, ws, es) && |es| == 4 && ws[0] == w0
    ensures var w, e := ws[3], es[3];
            && FailedWrite(w, e) && (forall j :: 0 <= j < 3 ==> !FailedWrite(ws[j], es[j]))
            && w.tokens[e.token] == Write(c, w.tokens[e.token].bufIdx) && c in w.conns && w.conns[c].readBuf.Some?
            && w.inRing != [] && w.free != [] && |w.conns| + 1 <= g.maxConnections
    ensures es[2].Complete? && es[2].outcome == Response(|request|, 0) && es[2].payload == request
    ensures es[3].Complete? && es[3].result == 0
  {
    hide Sound, Follows, Initial, FailedWrite;
    StartSound(g, w0);
    var e1, w1, t;
    e1, w1, c, t := Accepts(g, w0, 0, 0);
    var w2, bid := Selects(g, w1);
    var e3, w3, u := EmptyReply(g, w2, c, t, bid, request, out);
    var e4, w4 := EmptyWriteFails(g, w3, c, u, g.poolSize - 2);
    hide Ready;
    ws, es := [w0, w1, w2, w3, w4], [e1, Select, e3, e4];
    PathOfFour(g, ws, es);
    SelectSucceeds(w1);
  }

  lemma SelectSucceeds(w: Worker)
    ensures !FailedWrite(w, Select)
  {
  }

  lemma EmptyReply(g: Config, w: Worker, c: nat, t: nat, bid: nat, request: Bytes, out: Bytes)
    returns (e: Event, w': Worker, u: nat)
    requires Sound(g, w) && Ready(w, c, t) && bid in w.held && w.free == seq(g.poolSize, i => i) && g.poolSize >= 3
    requires 0 < |request| <= g.bufferSize && |out| == g.bufferSize && w.conns.Keys == {c}
    ensures Follows(g, w, e, w') && Sound(g, w') && !FailedWrite(w, e)
    ensures e.Complete? && e.outcome == Response(|request|, 0) && e.payload == request
    ensures u in w'.tokens && w'.tokens[u] == Write(c, g.poolSize - 2) && w'.conns.Keys == {c}
    ensures w'.conns[c].phase == Writing(g.poolSize - 2, 0, 0) && w'.conns[c].readBuf.Some?
    ensures w'.free != [] && w'.inRing != []
  {
    hide Sound, Follows, FailedWrite, Slice, Overwrite, Keys;
    var n := g.poolSize;
    var free := seq(n - 2, i => i);
    assert w.free == free + [n - 2] + [n - 1];
    e, w' := Answered(g, w, c, t, bid, n - 1, n - 2, free, request, out, 0);
    u := Keys(w).token;
  }

  lemma StartSound(g: Config, w: Worker)
    requires Initial(g, w) && g.ringEntries >= 1
    ensures Sound(g, w) && w.conns == map[] && w.free == seq(g.poolSize, i => i) && w.inRing != []
  {
    InitialTokens(g, w);
    InitialBounds(g, w);
    InitialBuffers(g, w);
  }

  lemma EmptyWriteFails(g: Config, w: Worker, c: nat, t: nat, i: nat) returns (e: Event, w': Worker)
    requires Sound(g, w) && t in w.tokens && w.tokens[t] == Write(c, i)
    requires c in w.conns && w.conns[c].phase == Writing(i, 0, 0)
    ensures Follows(g, w, e, w') && FailedWrite(w, e) && e.token == t && e.result == 0
  {
    e := Complete(t, 0, None, [], NeedData, seq(g.bufferSize, _ => 0), Keys(w));
    w' := Step(g, w, e);
    InflightAll(w);
  }

  lemma PathOfFour(g: Config, ws: seq<Worker>, es: seq<Event>)
    requires |ws| == 5 && |es| == 4 && Initial(g, ws[0])
    requires Follows(g, ws[0], es[0], ws[1]) && Follows(g, ws[1], es[1], ws[2])
    requires Follows(g, ws[2], es[2], ws[3]) && Follows(g, ws[3], es[3], ws[4])
    ensures Run(g, ws, es)
  {
    hide Initial, Legal, Step;
  }

  /** Under every configuration with three buffers, a provided buffer and two connections, for all requests and replies
      that fit: a run from the start with one failed write, the end of an empty reply, that corrupts two connections. */
  lemma DoubleFreeReached(g: Config, w0: Worker, request: Bytes, out: Bytes, x: Script)
    returns (ws: seq<Worker>, es: seq<Event>, d1: nat, d2: nat, b: nat)
    requires Initial(g, w0) && g.poolSize >= 3 && g.ringEntries >= 1 && g.maxConnections >= 2
    requires 0 < |request| <= g.bufferSize && |out| == g.bufferSize && Playable(g, x)
    ensures Run(g, ws, es) && ws[0] == w0 && |es| == 13
    ensures FailedWrite(ws[3], es[3]) && es[3].Complete? && es[3].result == 0
    ensures es[2].Complete? && es[2].outcome == Response(|request|, 0) && Harm(ws[4..], d1, d2, b)
  {
    hide Run, FailedWrite, Harm, Playable, Initial;
    var ws0, es0, c := FailedWriteReached(g, w0, request, out);
    RunLength(g, ws0, es0);
    ws, es, d1, d2, b := FailedWriteHarms(g, ws0, es0, c, x);
    RunLength(g, ws, es);
    assert ws[0] == ws0[0] && ws[3] == ws0[3] && es[2] == es0[2] && es[3] == es0[3];
  }
}
