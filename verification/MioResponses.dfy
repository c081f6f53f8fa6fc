/** Large responses over whole runs of the mio worker: their bytes stay as they were put into the chain, whatever the
    other connections do, and what is sent of them is a prefix as long as every write resumes at a resumable offset. */
module MioResponses {
  import opened Base
  import opened Buffers
  import opened Connection
  import opened MioSpec
  import ChainWrite

  /** A large response: its bytes, what was sent of it, and whether every write so far began at a resumable offset. */
  datatype Job = Job(response: Bytes, sent: Bytes, smooth: bool)

  /** The worker with the bytes in its pool, and the latest large response of each connection. */
  datatype Loaded = Loaded(w: Worker, bufs: seq<Bytes>, jobs: map<nat, Job>)

  // ---------------------------------------------------------------- steps with bytes

  /** The connection is sending from a chain. */
  predicate Chained(conn: Conn) {
    conn.state.Writing? && conn.state.bufIdx == CHAIN_MARKER && conn.writeChain.Some?
  }

  function ChainOfConn(g: Config, bufs: seq<Bytes>, conn: Conn): ChainWrite.Chain
    requires Chained(conn)
  {
    ChainWrite.Chain(bufs, conn.writeChain.value, conn.state.total, g.bufferSize)
  }

  /** The event makes its connection start a large response. */
  predicate Installs(w: Worker, e: Event) {
    Processes(w, e) && e.outcome.LargeResponse? && e.ok
  }

  /** The socket takes bytes of a large response. */
  predicate Sends(w: Worker, e: Event) {
    e.Writable? && e.c in w.conns && Chained(w.conns[e.c]) && e.result.Wrote?
  }

  /** The buffers an event may write: those of the connection that processes input, and those it takes. */
  predicate MayWrite(w: Worker, e: Event, i: nat) {
    Processes(w, e) && (i in Owned(w.conns[e.c]) || i in e.taken)
  }

  /** What the socket is offered. */
  function Offer(g: Config, l: Loaded, conn: Conn): Bytes
    requires Chained(conn)
  {
    var ch := ChainOfConn(g, l.bufs, conn);
    if ChainWrite.ValidChain(ch) then ChainWrite.Offered(ch, conn.state.written) else []
  }

  ghost function NextJobs(g: Config, l: Loaded, e: Event, data: Bytes): map<nat, Job>
    requires g.bufferSize > 0
  {
    if e.Accept? then l.jobs - {e.c}
    else if Installs(l.w, e) then l.jobs[e.c := Job(data, [], true)]
    else if Sends(l.w, e) && e.c in l.jobs then
      var conn, job := l.w.conns[e.c], l.jobs[e.c];
      var offer := Offer(g, l, conn);
      var n := Min(e.result.n, |offer|);
      l.jobs[e.c := Job(job.response, job.sent + offer[..n],
                        job.smooth && Resumable(conn.state.written, conn.state.total, g.bufferSize))]
    else l.jobs
  }

  /** One event: `data` is the response when it starts a large one, which then lies in the buffers it took; other
      buffers change only where the event may write; a socket takes no more than it is offered. */
  ghost predicate Moves(g: Config, l: Loaded, e: Event, data: Bytes, l': Loaded)
    requires g.bufferSize > 0
  {
    && Legal(g, l.w, e) && l'.w == Step(g, l.w, e)
    && |l'.bufs| == |l.bufs| && SameSize(l'.bufs, g.bufferSize)
    && (forall i: nat :: i < |l.bufs| && !MayWrite(l.w, e, i) ==> l'.bufs[i] == l.bufs[i])
    && (Installs(l.w, e) ==>
          && |data| == e.outcome.len
          && (InPool(l'.bufs, e.taken) ==> Flat(l'.bufs, e.taken, |data|, g.bufferSize) == data))
    && (Sends(l.w, e) ==> e.result.n <= |Offer(g, l, l.w.conns[e.c])|)
    && l'.jobs == NextJobs(g, l, e, data)
  }

  ghost predicate LoadedRun(g: Config, ls: seq<Loaded>, es: seq<Event>, datas: seq<Bytes>)
    requires g.bufferSize > 0
  {
    && |ls| == |es| + 1 == |datas| + 1
    && Initial(g, ls[0].w) && |ls[0].bufs| == g.poolSize && SameSize(ls[0].bufs, g.bufferSize) && ls[0].jobs == map[]
    && forall i :: 0 <= i < |es| ==> Moves(g, ls[i], es[i], datas[i], ls[i + 1])
  }

  // ---------------------------------------------------------------- the invariant

  /** The chain holds the response, and what was sent smoothly is its head. */
  ghost predicate OnItsWay(g: Config, l: Loaded, c: nat)
    requires c in l.w.conns && Chained(l.w.conns[c])
  {
    var conn := l.w.conns[c];
    var ch := ChainOfConn(g, l.bufs, conn);
    && c in l.jobs && ChainWrite.ValidChain(ch) && ChainWrite.Response(ch) == l.jobs[c].response
    && |l.jobs[c].response| == ch.len && conn.state.written <= ch.len
    && (l.jobs[c].smooth ==> l.jobs[c].sent == l.jobs[c].response[..conn.state.written])
  }

  /** A response that is no longer being sent was sent whole, if smoothly. */
  ghost predicate Delivered(l: Loaded, c: nat) {
    c in l.jobs ==> l.jobs[c].smooth ==> l.jobs[c].sent == l.jobs[c].response
  }

  ghost predicate LoadedInv(g: Config, l: Loaded) {
    && Inv(g, l.w) && |l.bufs| == g.poolSize && SameSize(l.bufs, g.bufferSize)
    && forall c :: c in l.w.conns ==> if Chained(l.w.conns[c]) then OnItsWay(g, l, c) else Delivered(l, c)
  }

  /** An event changes no connection but its own. */
  lemma OthersSame(g: Config, w: Worker, e: Event, d: nat)
    requires g.bufferSize > 0 && d != e.c
    ensures d in Step(g, w, e).conns <==> d in w.conns
    ensures d in w.conns ==> Step(g, w, e).conns[d] == w.conns[d]
  {
    hide Owned, ChainOf, Missing;
  }

  /** No connection's buffer is free, another's, or taken by another. */
  lemma OwnBuffer(g: Config, w: Worker, e: Event, d: nat, i: nat)
    requires g.bufferSize > 0 && Inv(g, w) && Legal(g, w, e) && d in w.conns && i in Owned(w.conns[d])
    requires d != e.c
    ensures !MayWrite(w, e, i)
  {
    hide Owned, ChainOf, Shape, Inv, Missing;
    if Processes(w, e) {
      NotOthers(g, w, d, e.c, i);
      NotTaken(w.free, ChainOf(w.conns[e.c].readChain), e.taken, i);
    }
  }

  lemma NotOthers(g: Config, w: Worker, d: nat, c: nat, i: nat)
    requires Inv(g, w) && d in w.conns && c in w.conns && c != d && i in Owned(w.conns[d])
    ensures i !in w.free && i !in Owned(w.conns[c]) && i !in ChainOf(w.conns[c].readChain)
  {
    hide Owned, ChainOf;
    HoldersSplit(w.conns, d, i);
    HoldersSplit(w.conns - {d}, c, i);
    assert w.free[i] + Holders(w.conns, i) <= 1;
    ChainPart(w.conns[c], i);
  }

  lemma ChainPart(conn: Conn, i: nat)
    ensures i in ChainOf(conn.readChain) ==> i in Owned(conn)
    ensures i in ChainOf(conn.writeChain) ==> i in Owned(conn)
  {
  }

  lemma NotTaken(free: multiset<nat>, chain: multiset<nat>, taken: seq<nat>, i: nat)
    requires multiset(taken) <= free + chain && i !in free && i !in chain
    ensures i !in taken
  {
    assert i !in free + chain;
  }

  // ---------------------------------------------------------------- every event keeps it

  /** What the invariant says of one connection. */
  ghost predicate Kept(g: Config, l: Loaded, c: nat)
    requires c in l.w.conns
  {
    if Chained(l.w.conns[c]) then OnItsWay(g, l, c) else Delivered(l, c)
  }

  /** The same record, the same job and the same bytes in the chain. */
  lemma KeptSame(g: Config, l: Loaded, l': Loaded, c: nat)
    requires c in l.w.conns && c in l'.w.conns && l'.w.conns[c] == l.w.conns[c] && Kept(g, l, c)
    requires (c in l'.jobs <==> c in l.jobs) && (c in l.jobs ==> l'.jobs[c] == l.jobs[c])
    requires |l'.bufs| == |l.bufs| && SameSize(l'.bufs, g.bufferSize)
    requires forall i :: i in ChainOf(l.w.conns[c].writeChain) && i < |l.bufs| ==> l'.bufs[i] == l.bufs[i]
    ensures Kept(g, l', c)
  {
    var conn := l.w.conns[c];
    if Chained(conn) {
      var idxs := conn.writeChain.value;
      assert forall k :: 0 <= k < |idxs| ==> idxs[k] in ChainOf(conn.writeChain);
      FlatFrame(l.bufs, l'.bufs, idxs, conn.state.total, g.bufferSize);
      hide Flat, Shape, Distinct;
    }
  }

  lemma JobsElsewhere(g: Config, l: Loaded, e: Event, data: Bytes, d: nat)
    requires g.bufferSize > 0 && d != e.c
    ensures d in NextJobs(g, l, e, data) <==> d in l.jobs
    ensures d in l.jobs ==> NextJobs(g, l, e, data)[d] == l.jobs[d]
  {
    hide Offer, Processes;
  }

  lemma OtherKept(g: Config, l: Loaded, e: Event, data: Bytes, l': Loaded, d: nat)
    requires g.bufferSize > 0 && LoadedInv(g, l) && Moves(g, l, e, data, l') && d != e.c && d in l.w.conns
    ensures d in l'.w.conns && Kept(g, l', d)
  {
    hide Owned, Inv, Step, Legal, NextJobs, ChainOf, OnItsWay, Delivered, Chained;
    OthersSame(g, l.w, e, d);
    JobsElsewhere(g, l, e, data, d);
    forall i | i in ChainOf(l.w.conns[d].writeChain) && i < |l.bufs|
      ensures l'.bufs[i] == l.bufs[i]
    {
      ChainPart(l.w.conns[d], i);
      OwnBuffer(g, l.w, e, d, i);
    }
    KeptSame(g, l, l', d);
  }

  /** Indices the pool hands out are distinct and its own. */
  lemma TakenDistinct(g: Config, w: Worker, e: Event)
    requires g.bufferSize > 0 && Inv(g, w) && Legal(g, w, e) && Processes(w, e)
    ensures Distinct(e.taken) && forall i :: i in e.taken ==> i < g.poolSize
  {
    hide Owned, Shape, Missing;
    forall i: nat
      ensures multiset(e.taken)[i] <= if i < g.poolSize then 1 else 0
    {
      HoldersSplit(w.conns, e.c, i);
      ChainCount(w.conns[e.c], i);
      assert w.free[i] + Holders(w.conns, i) == if i < g.poolSize then 1 else 0;
      assert multiset(e.taken)[i] <= (w.free + ChainOf(w.conns[e.c].readChain))[i];
    }
    OnceDistinct(e.taken);
    forall i | i in e.taken
      ensures i < g.poolSize
    {
      assert multiset(e.taken)[i] > 0;
    }
  }

  lemma ChainCount(conn: Conn, i: nat)
    ensures ChainOf(conn.readChain)[i] <= Owned(conn)[i]
  {
  }

  lemma InstallKept(g: Config, l: Loaded, e: Event, data: Bytes, l': Loaded)
    requires g.bufferSize > 0 && LoadedInv(g, l) && Moves(g, l, e, data, l') && Installs(l.w, e)
    ensures e.c in l'.w.conns && Kept(g, l', e.c)
  {
    TakenDistinct(g, l.w, e);
    hide Inv, Owned, ChainOf, Flat, Shape, Distinct, Missing, Offer;
    assert forall k :: 0 <= k < |e.taken| ==> e.taken[k] in e.taken;
    assert InPool(l'.bufs, e.taken);
  }

  lemma OfferLength(ch: ChainWrite.Chain, written: nat)
    requires ChainWrite.ValidChain(ch)
    ensures |ChainWrite.Offered(ch, written)| <= if written < ch.len then ch.len - written else 0
  {
    if written < ch.len {
      GatherAtMost(ch.bufs, ch.idxs, written, ch.len - written, ch.size);
    }
  }

  /** A write from a resumable offset continues a prefix of the response. */
  lemma SentSmoothly(ch: ChainWrite.Chain, response: Bytes, sent: Bytes, written: nat, n: nat)
    requires ChainWrite.ValidChain(ch) && ChainWrite.Response(ch) == response && |response| == ch.len
    requires written <= ch.len && n <= |ChainWrite.Offered(ch, written)| && sent == response[..written]
    requires Resumable(written, ch.len, ch.size)
    ensures written + n <= ch.len && sent + ChainWrite.Offered(ch, written)[..n] == response[..written + n]
  {
    OfferLength(ch, written);
    if written < ch.len {
      GatherResumes(ch.bufs, ch.idxs, written, ch.len, ch.size);
      hide Gather, Flat, Shape, Resumable;
      assert response[..written] + response[written..][..n] == response[..written + n];
    }
  }

  /** The socket took some bytes of the connection's large response. */
  lemma SendKept(g: Config, l: Loaded, e: Event, data: Bytes, l': Loaded)
    requires g.bufferSize > 0 && LoadedInv(g, l) && Moves(g, l, e, data, l') && Sends(l.w, e) && e.c in l'.w.conns
    ensures Kept(g, l', e.c)
  {
    hide Inv, Owned, ChainOf, Flat, Shape, Distinct, Gather, Resumable, Legal;
    var conn, job := l.w.conns[e.c], l.jobs[e.c];
    assert Kept(g, l, e.c) && l'.bufs == l.bufs;
    var ch, written, n := ChainOfConn(g, l.bufs, conn), conn.state.written, e.result.n;
    OfferLength(ch, written);
    if job.smooth && Resumable(written, ch.len, ch.size) {
      SentSmoothly(ch, job.response, job.sent, written, n);
    }
    SendState(l.w, e);
    hide HandleWritable, Step, ChainWrite.ValidChain, ChainWrite.Offered, ChainWrite.Response;
    if written + n >= ch.len {
      assert job.response[..ch.len] == job.response;
    }
  }

  lemma SendState(w: Worker, e: Event)
    requires Sends(w, e)
    ensures var w', conn := HandleWritable(w, e), w.conns[e.c];
            var written, total := conn.state.written + e.result.n, conn.state.total;
            e.c in w'.conns ==>
              if written >= total then w'.conns[e.c].state == Reading(0)
              else w'.conns[e.c] == conn.(state := Writing(CHAIN_MARKER, written, total))
  {
    hide Owned, ChainOf;
  }

  /** An event that neither starts nor sends a large response leaves its connection's chain alone, or the connection
      was and is not sending from one. */
  lemma PlainState(g: Config, w: Worker, e: Event)
    requires g.bufferSize > 0 && g.poolSize < CHAIN_MARKER && Inv(g, w) && !e.Accept?
    requires !Installs(w, e) && !Sends(w, e) && e.c in Step(g, w, e).conns
    ensures e.c in w.conns
    ensures var conn, conn' := w.conns[e.c], Step(g, w, e).conns[e.c];
            conn' == conn || (!Chained(conn) && !Chained(conn'))
    ensures Processes(w, e) ==> !Chained(w.conns[e.c])
  {
    hide Owned, ChainOf, Missing, Conserved;
    if e.c in w.conns {
      ConnFacts(g, w, e.c);
    }
    hide Inv;
  }

  lemma PlainKept(g: Config, l: Loaded, e: Event, data: Bytes, l': Loaded)
    requires g.bufferSize > 0 && g.poolSize < CHAIN_MARKER && LoadedInv(g, l) && Moves(g, l, e, data, l')
    requires !e.Accept? && !Installs(l.w, e) && !Sends(l.w, e) && e.c in l'.w.conns
    ensures Kept(g, l', e.c)
  {
    PlainState(g, l.w, e);
    assert Kept(g, l, e.c);
    hide Inv, Owned, ChainOf, Step, Legal, OnItsWay, Chained;
    if l'.w.conns[e.c] == l.w.conns[e.c] {
      if Processes(l.w, e) {
        assert !Chained(l.w.conns[e.c]);
      } else {
        KeptSame(g, l, l', e.c);
      }
    }
  }

  lemma AcceptKept(g: Config, l: Loaded, e: Event, data: Bytes, l': Loaded)
    requires g.bufferSize > 0 && LoadedInv(g, l) && Moves(g, l, e, data, l') && e.Accept? && e.c in l'.w.conns
    ensures Kept(g, l', e.c)
  {
    hide Inv, Owned, OnItsWay;
  }

  lemma MoveKept(g: Config, l: Loaded, e: Event, data: Bytes, l': Loaded)
    requires g.bufferSize > 0 && g.poolSize < CHAIN_MARKER && LoadedInv(g, l) && Moves(g, l, e, data, l')
    ensures LoadedInv(g, l')
  {
    StepKeepsInv(g, l.w, e);
    hide Inv, Step, Legal, OnItsWay, Delivered, Chained, NextJobs, Installs, Sends, SameSize;
    forall c | c in l'.w.conns
      ensures Kept(g, l', c)
    {
      if c != e.c {
        OthersSame(g, l.w, e, c);
        OtherKept(g, l, e, data, l', c);
      } else if e.Accept? {
        AcceptKept(g, l, e, data, l');
      } else if Installs(l.w, e) {
        InstallKept(g, l, e, data, l');
      } else if Sends(l.w, e) {
        SendKept(g, l, e, data, l');
      } else {
        PlainKept(g, l, e, data, l');
      }
    }
    assert forall c :: c in l'.w.conns ==> Kept(g, l', c);
  }

  lemma {:induction false} LoadedRunInv(g: Config, ls: seq<Loaded>, es: seq<Event>, datas: seq<Bytes>, n: nat)
    requires g.bufferSize > 0 && g.poolSize < CHAIN_MARKER && LoadedRun(g, ls, es, datas) && n < |ls|
    ensures LoadedInv(g, ls[n])
    decreases n
  {
    if n > 0 {
      hide LoadedInv, Moves, Initial;
      LoadedRunInv(g, ls, es, datas, n - 1);
      MoveKept(g, ls[n - 1], es[n - 1], datas[n - 1], ls[n]);
    }
  }

  /** On every run, for every connection that is sending a large response: its chain still holds exactly the bytes put
      there, whatever happened since on other connections; and if every write so far began at a resumable offset,
      the bytes sent are the response up to the count of written bytes. */
  lemma ResponseUnderWay(g: Config, ls: seq<Loaded>, es: seq<Event>, datas: seq<Bytes>, n: nat, c: nat)
    requires g.bufferSize > 0 && g.poolSize < CHAIN_MARKER && LoadedRun(g, ls, es, datas) && n < |ls|
    requires c in ls[n].w.conns && Chained(ls[n].w.conns[c])
    ensures var l, conn := ls[n], ls[n].w.conns[c];
            && c in l.jobs && SameSize(l.bufs, g.bufferSize) && InPool(l.bufs, conn.writeChain.value)
            && Flat(l.bufs, conn.writeChain.value, conn.state.total, g.bufferSize) == l.jobs[c].response
            && conn.state.written <= |l.jobs[c].response| == conn.state.total
            && (l.jobs[c].smooth ==> l.jobs[c].sent == l.jobs[c].response[..conn.state.written])
  {
    LoadedRunInv(g, ls, es, datas, n);
    hide Inv;
    assert OnItsWay(g, ls[n], c);
  }

  /** Once it is no longer sending it, it has sent all of it, if every write began at a resumable offset. */
  lemma ResponseDelivered(g: Config, ls: seq<Loaded>, es: seq<Event>, datas: seq<Bytes>, n: nat, c: nat)
    requires g.bufferSize > 0 && g.poolSize < CHAIN_MARKER && LoadedRun(g, ls, es, datas) && n < |ls|
    requires c in ls[n].w.conns && !Chained(ls[n].w.conns[c]) && c in ls[n].jobs && ls[n].jobs[c].smooth
    ensures ls[n].jobs[c].sent == ls[n].jobs[c].response
  {
    LoadedRunInv(g, ls, es, datas, n);
    hide Inv;
    assert Delivered(ls[n], c);
  }
}
