/** Responses that fit the write buffer of the mio worker, over whole runs: what the socket took of one is its
    beginning, and all of it once the connection reads again. */
module MioReplies {
  import opened Base
  import opened Buffers
  import opened Connection
  import opened MioSpec
  import opened MioResponses
  import opened MioInput

  /** The latest such response of a connection, and the bytes of it that the socket took. */
  datatype Reply = Reply(text: Bytes, sent: Bytes)

  const NO_REPLY := Reply([], [])

  /** One more event of the connection: the response is what processing put into the write buffer; the socket is offered
      the buffer from the written bytes on. */
  function Speak(r: Reply, l: Fed, f: Feed): Reply {
    if Processes(l.w, f.e) && f.e.outcome.Response? then
      Reply(if f.e.outcome.len <= |f.out| then f.out[..f.e.outcome.len] else f.out, [])
    else if SendsPlain(l.w, f.e) then
      var state := l.w.conns[f.e.c].state;
      var buf := if state.bufIdx < |l.bufs| then l.bufs[state.bufIdx] else [];
      var from := Min(state.written, |buf|);
      r.(sent := r.sent + buf[from..Min(from + f.e.result.n, |buf|)])
    else r
  }

  /** The reply at state `n` of the connection `c` that was accepted at event `k` - 1. */
  function ReplyAt(ls: seq<Fed>, fs: seq<Feed>, c: nat, k: nat, n: nat): Reply
    requires k <= n < |ls| == |fs| + 1
  {
    if n == k then NO_REPLY
    else
      var r := ReplyAt(ls, fs, c, k, n - 1);
      if fs[n - 1].e.c == c then Speak(r, ls[n - 1], fs[n - 1]) else r
  }

  /** The write buffer holds the response under way, and what was sent is its first `written` bytes; a response no
      longer under way was sent whole. */
  ghost predicate Speaks(g: Config, l: Fed, c: nat, r: Reply) {
    && c in l.w.conns
    && var conn := l.w.conns[c];
       if Plain(conn) then
         && conn.state.bufIdx == conn.writeBuf < |l.bufs|
         && conn.state.written <= conn.state.total == |r.text| <= |l.bufs[conn.writeBuf]|
         && l.bufs[conn.writeBuf][..conn.state.total] == r.text
         && r.sent == r.text[..conn.state.written]
       else r.sent == r.text
  }

  lemma StartSpeaks(g: Config, l: Fed, f: Feed, l': Fed, r: Reply)
    requires g.bufferSize > 0 && g.poolSize < CHAIN_MARKER && FedInv(g, l) && Feeds(g, l, f, l')
    requires Processes(l.w, f.e) && Speaks(g, l, f.e.c, r) && f.e.c in l'.w.conns
    ensures Speaks(g, l', f.e.c, Speak(r, l, f))
  {
    ConnFacts(g, l.w, f.e.c);
    StartState(g, l.w, f.e);
    hide Inv, Step, Legal, MayWrite, AfterRead, SameSize;
    var conn := l.w.conns[f.e.c];
    assert |l.bufs| == g.poolSize && l'.bufs[conn.writeBuf] == f.out;
    if f.e.outcome.Response? {
      assert f.out[..f.e.outcome.len][..0] == [];
    }
  }

  /** What a read leads to, when the connection stays open. */
  lemma StartState(g: Config, w: Worker, e: Event)
    requires g.bufferSize > 0 && Processes(w, e) && e.c in Step(g, w, e).conns
    ensures var conn, conn' := w.conns[e.c], Step(g, w, e).conns[e.c];
            && conn'.writeBuf == conn.writeBuf
            && match e.outcome
               case Response(len) => conn'.state == Writing(conn.writeBuf, 0, len)
               case LargeResponse(len) => conn'.state == Writing(CHAIN_MARKER, 0, len)
               case _ => conn'.state == Reading(conn.state.filled + e.read.n)
  {
    hide Owned, ChainOf, Missing;
  }

  lemma SendSpeaks(g: Config, l: Fed, f: Feed, l': Fed, r: Reply)
    requires g.bufferSize > 0 && FedInv(g, l) && Feeds(g, l, f, l')
    requires SendsPlain(l.w, f.e) && Speaks(g, l, f.e.c, r) && f.e.c in l'.w.conns
    ensures Speaks(g, l', f.e.c, Speak(r, l, f))
  {
    hide Owned, ChainOf, Missing, Inv, Shape, AfterRead;
    assert l'.bufs == l.bufs;
    var state := l.w.conns[f.e.c].state;
    var buf, written := l.bufs[state.bufIdx], state.written + f.e.result.n;
    NextPart(buf, r.text, state.written, written);
    hide Feeds;
    assert r.text[..|r.text|] == r.text;
  }

  lemma NextPart(buf: Bytes, text: Bytes, from: nat, to: nat)
    requires |text| <= |buf| && buf[..|text|] == text && from <= to <= |text|
    ensures buf[from..to] == text[from..to] && text[..from] + text[from..to] == text[..to]
  {
    forall i | 0 <= i < |text|
      ensures buf[i] == text[i]
    {
      assert buf[..|text|][i] == buf[i];
    }
  }

  /** Every other event of the connection itself. */
  lemma QuietSpeaks(g: Config, l: Fed, f: Feed, l': Fed, r: Reply)
    requires g.bufferSize > 0 && FedInv(g, l) && Feeds(g, l, f, l')
    requires !Processes(l.w, f.e) && !SendsPlain(l.w, f.e) && !f.e.Accept?
    requires Speaks(g, l, f.e.c, r) && f.e.c in l'.w.conns
    ensures Speaks(g, l', f.e.c, r)
  {
    hide Owned, ChainOf, Missing, Inv, Shape, AfterRead;
    assert l'.bufs == l.bufs;
  }

  lemma OtherSpeaks(g: Config, l: Fed, f: Feed, l': Fed, c: nat, r: Reply)
    requires g.bufferSize > 0 && FedInv(g, l) && Feeds(g, l, f, l') && Speaks(g, l, c, r) && c != f.e.c
    ensures Speaks(g, l', c, r)
  {
    OthersSame(g, l.w, f.e, c);
    assert l.w.conns[c].writeBuf in Owned(l.w.conns[c]);
    OwnBuffer(g, l.w, f.e, c, l.w.conns[c].writeBuf);
    hide Inv, Step, Legal, MayWrite, AfterRead;
  }

  lemma NewSpeaks(g: Config, l: Fed, f: Feed, l': Fed, c: nat)
    requires g.bufferSize > 0 && Feeds(g, l, f, l') && c !in l.w.conns && c in l'.w.conns
    ensures Speaks(g, l', c, NO_REPLY)
  {
    if c != f.e.c {
      OthersSame(g, l.w, f.e, c);
    }
    hide Owned, ChainOf, Missing, Shape, AfterRead;
  }

  lemma FeedSpeaks(g: Config, l: Fed, f: Feed, l': Fed, c: nat, r: Reply)
    requires g.bufferSize > 0 && g.poolSize < CHAIN_MARKER && FedInv(g, l) && Feeds(g, l, f, l')
    requires Speaks(g, l, c, r) && c in l'.w.conns
    ensures Speaks(g, l', c, if f.e.c == c then Speak(r, l, f) else r)
  {
    if c != f.e.c {
      OtherSpeaks(g, l, f, l', c, r);
    } else if Processes(l.w, f.e) {
      StartSpeaks(g, l, f, l', r);
    } else if SendsPlain(l.w, f.e) {
      SendSpeaks(g, l, f, l', r);
    } else {
      QuietSpeaks(g, l, f, l', r);
    }
  }

  lemma {:induction false} SpeaksOnRuns(g: Config, ls: seq<Fed>, fs: seq<Feed>, c: nat, k: nat, n: nat)
    requires g.bufferSize > 0 && g.poolSize < CHAIN_MARKER && FedRun(g, ls, fs)
    requires 0 < k <= n < |ls| && Lives(ls, c, k, n)
    ensures Speaks(g, ls[n], c, ReplyAt(ls, fs, c, k, n))
    decreases n
  {
    hide FedInv, Feeds, Speaks, Initial, Speak;
    FedRunInv(g, ls, fs, n - 1);
    if n == k {
      NewSpeaks(g, ls[n - 1], fs[n - 1], ls[n], c);
    } else {
      SpeaksOnRuns(g, ls, fs, c, k, n - 1);
      FeedSpeaks(g, ls[n - 1], fs[n - 1], ls[n], c, ReplyAt(ls, fs, c, k, n - 1));
    }
  }

  /** On every run, whatever other connections do: what the socket took of a connection's response is its first bytes,
      as many as are counted as written, and all of it once the connection no longer sends it. */
  lemma ReplyDelivered(g: Config, ls: seq<Fed>, fs: seq<Feed>, c: nat, k: nat, n: nat)
    requires g.bufferSize > 0 && g.poolSize < CHAIN_MARKER && FedRun(g, ls, fs)
    requires 0 < k <= n < |ls| && Lives(ls, c, k, n)
    ensures var r, conn := ReplyAt(ls, fs, c, k, n), ls[n].w.conns[c];
            if Plain(conn) then
              conn.state.written <= conn.state.total == |r.text| && r.sent == r.text[..conn.state.written]
            else r.sent == r.text
  {
    hide FedRun, Lives;
    SpeaksOnRuns(g, ls, fs, c, k, n);
  }
}
