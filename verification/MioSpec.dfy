/** One mio worker's use of its buffer pool: which index is free, and which role of which connection
    owns each other one. The free list is a multiset here, so every allocation order is covered. */
module MioSpec {
  import opened Base
  import opened Buffers
  import opened Connection

  datatype Config = Config(maxConnections: nat, bufferSize: nat, poolSize: nat, maxValueSize: nat)

  /** `usize::MAX` as a buffer index: the response is in the write chain. */
  const CHAIN_MARKER: nat := U64 - 1

  datatype Conn = Conn(
    state: DataState,
    readBuf: nat,
    writeBuf: nat,
    readChain: Option<seq<nat>>,
    writeChain: Option<seq<nat>>)

  datatype Worker = Worker(free: multiset<nat>, conns: map<nat, Conn>)

  datatype Outcome =
    | NeedData
    | NeedChain(commandLen: nat, valueLen: nat)
    | Response(len: nat)
    | LargeResponse(len: nat)
    | Quit
    | Failed

  /** What the socket said. */
  datatype ReadResult = ReadBlocked | ReadEnded | ReadGot(n: nat)
  datatype WriteResult = WriteBlocked | WriteFailed | Wrote(n: nat)

  /** `taken` are the indices the pool hands out during the step; `ok` is false when the pool runs out in the
      middle of a large response or re-registration with the poller fails. */
  datatype Event =
    | Accept(c: nat, taken: seq<nat>)
    | Readable(c: nat, read: ReadResult, outcome: Outcome, taken: seq<nat>, ok: bool)
    | Writable(c: nat, result: WriteResult, ok: bool)
    | Close(c: nat)

  // ---------------------------------------------------------------- ownership

  function ChainOf(chain: Option<seq<nat>>): multiset<nat> {
    if chain.Some? then multiset(chain.value) else multiset{}
  }

  function Owned(conn: Conn): multiset<nat> {
    multiset{conn.readBuf} + multiset{conn.writeBuf} + ChainOf(conn.readChain) + ChainOf(conn.writeChain)
  }

  // ---------------------------------------------------------------- steps

  /** `close_connection` */
  function CloseConn(w: Worker, c: nat): Worker {
    if c in w.conns then Worker(w.free + Owned(w.conns[c]), w.conns - {c}) else w
  }

  function AcceptConn(g: Config, w: Worker, c: nat, taken: seq<nat>): Worker {
    if |w.conns| >= g.maxConnections || |taken| < 2 then w
    else Worker(w.free - multiset(taken), w.conns[c := Conn(Reading(0), taken[0], taken[1], None, None)])
  }

  /** Chain buffers needed for a value that does not fit the read buffer. */
  function ChainBuffers(g: Config, commandLen: nat, valueLen: nat): nat
    requires g.bufferSize > 0
  {
    var total := Wrap(commandLen + valueLen + 2);
    var extra := if total > g.bufferSize then total - g.bufferSize else 0;
    (extra + g.bufferSize - 1) / g.bufferSize
  }

  /** How many more of them the connection must allocate. */
  function Missing(g: Config, conn: Conn, outcome: Outcome): nat
    requires g.bufferSize > 0 && outcome.NeedChain?
  {
    var need := ChainBuffers(g, outcome.commandLen, outcome.valueLen);
    var have := if conn.readChain.Some? then |conn.readChain.value| else 0;
    if have < need then need - have else 0
  }

  /** A value too large for the read buffer: allocate the missing chain buffers, all or none. */
  function ChainStep(g: Config, w: Worker, c: nat, n: nat, outcome: Outcome, taken: seq<nat>): Worker
    requires g.bufferSize > 0 && c in w.conns && w.conns[c].state.Reading? && outcome.NeedChain?
  {
    var conn := w.conns[c];
    var chain := if conn.readChain.Some? then conn.readChain.value else [];
    if outcome.valueLen > g.maxValueSize || |w.free| < Missing(g, conn, outcome) then CloseConn(w, c)
    else
      Worker(w.free - multiset(taken),
             w.conns[c := conn.(readChain := Some(chain + taken), state := Reading(conn.state.filled + n))])
  }

  /** A response in the write buffer. */
  function ResponseStep(w: Worker, c: nat, len: nat, ok: bool): Worker
    requires c in w.conns
  {
    var conn := w.conns[c];
    var w1 := Worker(w.free + ChainOf(conn.readChain),
                     w.conns[c := conn.(readChain := None, state := Writing(conn.writeBuf, 0, len))]);
    if ok then w1 else CloseConn(w1, c)
  }

  /** A response in a chain of its own. */
  function LargeStep(w: Worker, c: nat, len: nat, taken: seq<nat>, ok: bool): Worker
    requires c in w.conns
  {
    var conn := w.conns[c];
    var w1 := Worker(w.free + ChainOf(conn.readChain), w.conns[c := conn.(readChain := None)]);
    if !ok then CloseConn(w1, c)
    else
      Worker(w1.free - multiset(taken),
             w.conns[c := conn.(readChain := None, writeChain := Some(taken), state := Writing(CHAIN_MARKER, 0, len))])
  }

  function HandleReadable(g: Config, w: Worker, e: Event): Worker
    requires e.Readable? && g.bufferSize > 0
  {
    if e.c !in w.conns || !w.conns[e.c].state.Reading? || e.read.ReadBlocked? then w
    else if e.read.ReadEnded? then CloseConn(w, e.c)
    else
      match e.outcome
      case NeedData =>
        w.(conns := w.conns[e.c := w.conns[e.c].(state := Reading(w.conns[e.c].state.filled + e.read.n))])
      case NeedChain(_, _) => ChainStep(g, w, e.c, e.read.n, e.outcome, e.taken)
      case Response(len) => ResponseStep(w, e.c, len, e.ok)
      case LargeResponse(len) => LargeStep(w, e.c, len, e.taken, e.ok)
      case Quit => CloseConn(w, e.c)
      case Failed => CloseConn(w, e.c)
  }

  function HandleWritable(w: Worker, e: Event): Worker
    requires e.Writable?
  {
    if e.c !in w.conns || !w.conns[e.c].state.Writing? then w
    else
      var conn := w.conns[e.c];
      var Writing(b, written, total) := conn.state;
      if b == CHAIN_MARKER && conn.writeChain.None? then CloseConn(w, e.c)
      else
        match e.result
        case WriteBlocked => w
        case WriteFailed => CloseConn(w, e.c)
        case Wrote(n) =>
          if written + n >= total then
            var w1 := Worker(w.free + ChainOf(conn.writeChain),
                             w.conns[e.c := conn.(writeChain := None, state := Reading(0))]);
            if e.ok then w1 else CloseConn(w1, e.c)
          else w.(conns := w.conns[e.c := conn.(state := Writing(b, written + n, total))])
  }

  function Step(g: Config, w: Worker, e: Event): Worker
    requires g.bufferSize > 0
  {
    match e
    case Accept(c, taken) => AcceptConn(g, w, c, taken)
    case Readable(_, _, _, _, _) => HandleReadable(g, w, e)
    case Writable(_, _, _) => HandleWritable(w, e)
    case Close(c) => CloseConn(w, c)
  }

  /** The pool only hands out free indices, as many as asked for. */
  ghost predicate Legal(g: Config, w: Worker, e: Event)
    requires g.bufferSize > 0
  {
    && (e.Accept? ==> e.c !in w.conns)
    && (e.Accept? && |w.conns| < g.maxConnections ==> |e.taken| == Min(2, |w.free|) && multiset(e.taken) <= w.free)
    && (Processes(w, e) && e.outcome.NeedChain? && e.outcome.valueLen <= g.maxValueSize
        && |w.free| >= Missing(g, w.conns[e.c], e.outcome) ==>
          |e.taken| == Missing(g, w.conns[e.c], e.outcome) && multiset(e.taken) <= w.free)
    && (Processes(w, e) ==> multiset(e.taken) <= w.free + ChainOf(w.conns[e.c].readChain))
    && (Processes(w, e) && e.outcome.LargeResponse? && e.ok ==> Shape(|e.taken|, e.outcome.len, g.bufferSize))
  }

  /** The event makes its connection process input. */
  predicate Processes(w: Worker, e: Event) {
    e.Readable? && e.c in w.conns && w.conns[e.c].state.Reading? && e.read.ReadGot?
  }

  /** The chain that a large value needs is as long as it has to be, and no longer. */
  lemma ChainBuffersFit(g: Config, commandLen: nat, valueLen: nat)
    requires g.bufferSize > 0
    ensures var total, n := Wrap(commandLen + valueLen + 2), ChainBuffers(g, commandLen, valueLen);
            total <= g.bufferSize + n * g.bufferSize && (n > 0 ==> total > n * g.bufferSize)
  {
    hide Wrap;
    var size, total := g.bufferSize, Wrap(commandLen + valueLen + 2);
    var extra := if total > size then total - size else 0;
    RoundsUp(extra, size);
  }

  lemma RoundsUp(extra: nat, size: nat)
    requires size > 0
    ensures var n := (extra + size - 1) / size; extra <= n * size < extra + size
  {
    var n, r := (extra + size - 1) / size, (extra + size - 1) % size;
    assert n * size + r == extra + size - 1;
  }

  /** A request that needs a chain keeps its connection exactly when its value is not too large and the pool has the
      missing buffers; then the read buffer and the chain have room for all of the request. */
  lemma NeedChainMakesRoom(g: Config, w: Worker, e: Event)
    requires g.bufferSize > 0 && Legal(g, w, e) && Processes(w, e) && e.outcome.NeedChain?
    ensures var w', need := HandleReadable(g, w, e), ChainBuffers(g, e.outcome.commandLen, e.outcome.valueLen);
            var have := if w.conns[e.c].readChain.Some? then |w.conns[e.c].readChain.value| else 0;
            && (e.c in w'.conns <==> e.outcome.valueLen <= g.maxValueSize && need <= have + |w.free|)
            && (e.c in w'.conns ==>
                  && w'.conns[e.c].readChain.Some? && |w'.conns[e.c].readChain.value| == Max(have, need)
                  && w'.conns[e.c].state == Reading(w.conns[e.c].state.filled + e.read.n)
                  && Wrap(e.outcome.commandLen + e.outcome.valueLen + 2)
                     <= g.bufferSize + need * g.bufferSize)
  {
    hide ChainBuffers, Wrap, Owned;
    ChainBuffersFit(g, e.outcome.commandLen, e.outcome.valueLen);
  }

  // ---------------------------------------------------------------- conservation

  /** How often the connections together own index `i`. */
  ghost function Holders(conns: map<nat, Conn>, i: nat): nat
    decreases |conns|
  {
    if conns == map[] then 0
    else
      var c :| c in conns;
      Owned(conns[c])[i] + Holders(conns - {c}, i)
  }

  lemma {:induction false} HoldersSplit(conns: map<nat, Conn>, c: nat, i: nat)
    requires c in conns
    ensures Holders(conns, i) == Owned(conns[c])[i] + Holders(conns - {c}, i)
    decreases |conns|
  {
    hide Owned;
    var d :| d in conns && Holders(conns, i) == Owned(conns[d])[i] + Holders(conns - {d}, i);
    if d != c {
      HoldersSplit(conns - {d}, c, i);
      HoldersSplit(conns - {c}, d, i);
      assert conns - {d} - {c} == conns - {c} - {d};
    }
  }

  lemma HoldersUpdate(conns: map<nat, Conn>, c: nat, conn: Conn, i: nat)
    ensures Holders(conns[c := conn], i) == Owned(conn)[i] + Holders(conns - {c}, i)
  {
    hide Owned;
    HoldersSplit(conns[c := conn], c, i);
    assert conns[c := conn] - {c} == conns - {c};
  }

  /** Each index of the pool is in exactly one place. */
  ghost predicate Conserved(g: Config, w: Worker) {
    forall i: nat :: w.free[i] + Holders(w.conns, i) == if i < g.poolSize then 1 else 0
  }

  /** A write chain exists exactly while the connection writes with the chain marker. */
  predicate ChainWhileWriting(conn: Conn) {
    conn.writeChain.Some? <==> conn.state.Writing? && conn.state.bufIdx == CHAIN_MARKER
  }

  ghost predicate Inv(g: Config, w: Worker) {
    Conserved(g, w) && forall c :: c in w.conns ==> ChainWhileWriting(w.conns[c])
  }

  lemma OwnedInPool(g: Config, w: Worker, c: nat)
    requires Conserved(g, w) && c in w.conns
    ensures forall i :: i in Owned(w.conns[c]) ==> i < g.poolSize
    ensures w.conns[c].readBuf < g.poolSize && w.conns[c].writeBuf < g.poolSize
  {
    forall i | i in Owned(w.conns[c])
      ensures i < g.poolSize
    {
      HoldersSplit(w.conns, c, i);
    }
    assert w.conns[c].readBuf in Owned(w.conns[c]) && w.conns[c].writeBuf in Owned(w.conns[c]);
  }

  lemma CloseConserves(g: Config, w: Worker, c: nat)
    requires Conserved(g, w)
    ensures Conserved(g, CloseConn(w, c))
  {
    hide Owned;
    if c in w.conns {
      forall i: nat
        ensures CloseConn(w, c).free[i] + Holders(CloseConn(w, c).conns, i) == if i < g.poolSize then 1 else 0
      {
        HoldersSplit(w.conns, c, i);
        assert CloseConn(w, c).free[i] == w.free[i] + Owned(w.conns[c])[i];
      }
    }
  }

  lemma CloseKeeps(g: Config, w: Worker, c: nat)
    requires Conserved(g, w)
    requires forall d :: d in w.conns && d != c ==> ChainWhileWriting(w.conns[d])
    ensures Inv(g, CloseConn(w, c))
  {
    CloseConserves(g, w, c);
    hide Conserved, ChainWhileWriting;
  }

  /** A connection record changed, and the pool changed by the difference. */
  lemma MoveConserves(g: Config, w: Worker, c: nat, conn: Conn, free: multiset<nat>)
    requires Conserved(g, w) && c in w.conns
    requires free + Owned(conn) == w.free + Owned(w.conns[c])
    ensures Conserved(g, Worker(free, w.conns[c := conn]))
  {
    hide Owned;
    forall i: nat
      ensures free[i] + Holders(w.conns[c := conn], i) == if i < g.poolSize then 1 else 0
    {
      HoldersSplit(w.conns, c, i);
      HoldersUpdate(w.conns, c, conn, i);
      assert (free + Owned(conn))[i] == (w.free + Owned(w.conns[c]))[i];
    }
  }

  lemma MoveKeeps(g: Config, w: Worker, c: nat, conn: Conn, free: multiset<nat>)
    requires Inv(g, w) && c in w.conns && ChainWhileWriting(conn)
    requires free + Owned(conn) == w.free + Owned(w.conns[c])
    ensures Inv(g, Worker(free, w.conns[c := conn]))
  {
    MoveConserves(g, w, c, conn, free);
    hide Conserved, ChainWhileWriting, Owned;
  }

  // ---------------------------------------------------------------- what a step moves

  lemma GrowReadChain(free: multiset<nat>, conn: Conn, conn': Conn, taken: seq<nat>)
    requires multiset(taken) <= free
    requires var chain := if conn.readChain.Some? then conn.readChain.value else [];
             conn' == conn.(readChain := Some(chain + taken), state := conn'.state)
    ensures (free - multiset(taken)) + Owned(conn') == free + Owned(conn)
  {
    assert ChainOf(conn'.readChain) == ChainOf(conn.readChain) + multiset(taken);
  }

  lemma DropReadChain(free: multiset<nat>, conn: Conn, conn': Conn)
    requires conn' == conn.(readChain := None, state := conn'.state)
    ensures (free + ChainOf(conn.readChain)) + Owned(conn') == free + Owned(conn)
  {
  }

  lemma NewWriteChain(free: multiset<nat>, conn: Conn, conn': Conn, taken: seq<nat>)
    requires multiset(taken) <= free && conn.writeChain.None?
    requires conn' == conn.(writeChain := Some(taken), state := conn'.state)
    ensures (free - multiset(taken)) + Owned(conn') == free + Owned(conn)
  {
  }

  lemma DropWriteChain(free: multiset<nat>, conn: Conn, conn': Conn)
    requires conn' == conn.(writeChain := None, state := conn'.state)
    ensures (free + ChainOf(conn.writeChain)) + Owned(conn') == free + Owned(conn)
  {
  }

  lemma ConnFacts(g: Config, w: Worker, c: nat)
    requires Inv(g, w) && c in w.conns
    ensures ChainWhileWriting(w.conns[c]) && w.conns[c].writeBuf < g.poolSize
  {
    OwnedInPool(g, w, c);
  }

  lemma StateOnly(conn: Conn, state: DataState)
    ensures Owned(conn.(state := state)) == Owned(conn)
  {
  }

  lemma CloseAfter(g: Config, w: Worker, c: nat)
    requires Inv(g, w)
    ensures Inv(g, CloseConn(w, c))
  {
    CloseKeeps(g, w, c);
  }

  lemma NeedDataKeeps(g: Config, w: Worker, c: nat, filled: nat)
    requires Inv(g, w) && c in w.conns && w.conns[c].state.Reading?
    ensures Inv(g, w.(conns := w.conns[c := w.conns[c].(state := Reading(filled))]))
  {
    hide Owned, Inv;
    ConnFacts(g, w, c);
    StateOnly(w.conns[c], Reading(filled));
    MoveKeeps(g, w, c, w.conns[c].(state := Reading(filled)), w.free);
  }

  lemma NeedChainKeeps(g: Config, w: Worker, c: nat, conn': Conn, taken: seq<nat>)
    requires Inv(g, w) && c in w.conns && w.conns[c].state.Reading? && conn'.state.Reading? && multiset(taken) <= w.free
    requires var conn := w.conns[c];
             var chain := if conn.readChain.Some? then conn.readChain.value else [];
             conn' == conn.(readChain := Some(chain + taken), state := conn'.state)
    ensures Inv(g, Worker(w.free - multiset(taken), w.conns[c := conn']))
  {
    hide Owned, Inv;
    ConnFacts(g, w, c);
    GrowReadChain(w.free, w.conns[c], conn', taken);
    MoveKeeps(g, w, c, conn', w.free - multiset(taken));
  }

  /** Releasing the read chain, with the new state. */
  lemma ReleaseReadChain(g: Config, w: Worker, c: nat, conn': Conn)
    requires Inv(g, w) && c in w.conns && ChainWhileWriting(conn')
    requires conn' == w.conns[c].(readChain := None, state := conn'.state)
    ensures Inv(g, Worker(w.free + ChainOf(w.conns[c].readChain), w.conns[c := conn']))
    ensures Inv(g, CloseConn(Worker(w.free + ChainOf(w.conns[c].readChain), w.conns[c := conn']), c))
  {
    hide Owned, Inv, CloseConn, ChainOf, ChainWhileWriting;
    DropReadChain(w.free, w.conns[c], conn');
    MoveKeeps(g, w, c, conn', w.free + ChainOf(w.conns[c].readChain));
    CloseAfter(g, Worker(w.free + ChainOf(w.conns[c].readChain), w.conns[c := conn']), c);
  }

  lemma InstallWriteChain(g: Config, w: Worker, c: nat, taken: seq<nat>, len: nat)
    requires Inv(g, w) && c in w.conns && w.conns[c].state.Reading? && multiset(taken) <= w.free
    ensures Inv(g, Worker(w.free - multiset(taken),
                          w.conns[c := w.conns[c].(writeChain := Some(taken), state := Writing(CHAIN_MARKER, 0, len))]))
  {
    hide Owned, Inv;
    ConnFacts(g, w, c);
    var conn' := w.conns[c].(writeChain := Some(taken), state := Writing(CHAIN_MARKER, 0, len));
    NewWriteChain(w.free, w.conns[c], conn', taken);
    MoveKeeps(g, w, c, conn', w.free - multiset(taken));
  }

  lemma LargeKeeps(g: Config, w: Worker, e: Event)
    requires 0 < g.bufferSize && Inv(g, w) && e.Readable? && Legal(g, w, e) && e.outcome.LargeResponse?
    requires e.c in w.conns && w.conns[e.c].state.Reading? && e.read.ReadGot?
    ensures Inv(g, HandleReadable(g, w, e))
  {
    hide Owned, Inv, CloseConn, ChainOf, Shape;
    var conn := w.conns[e.c];
    ConnFacts(g, w, e.c);
    var conn1 := conn.(readChain := None);
    ReleaseReadChain(g, w, e.c, conn1);
    if e.ok {
      var w1 := Worker(w.free + ChainOf(conn.readChain), w.conns[e.c := conn1]);
      InstallWriteChain(g, w1, e.c, e.taken, e.outcome.len);
      OverwriteTwice(w.conns, e.c, conn1,
                     w1.conns[e.c].(writeChain := Some(e.taken), state := Writing(CHAIN_MARKER, 0, e.outcome.len)));
    }
  }

  lemma OverwriteTwice(conns: map<nat, Conn>, c: nat, a: Conn, b: Conn)
    ensures conns[c := a][c := b] == conns[c := b]
  {
  }

  lemma ReadableKeeps(g: Config, w: Worker, e: Event)
    requires 0 < g.bufferSize && g.poolSize < CHAIN_MARKER
    requires Inv(g, w) && e.Readable? && Legal(g, w, e)
    ensures Inv(g, HandleReadable(g, w, e))
  {
    hide Owned, Inv, CloseConn, ChainOf, Shape, ChainBuffers;
    CloseAfter(g, w, e.c);
    if e.c in w.conns && w.conns[e.c].state.Reading? && e.read.ReadGot? {
      var conn := w.conns[e.c];
      var filled := conn.state.filled + e.read.n;
      match e.outcome
      case NeedData => NeedDataKeeps(g, w, e.c, filled);
      case NeedChain(_, valueLen) =>
        if valueLen <= g.maxValueSize && |w.free| >= Missing(g, conn, e.outcome) {
          var chain := if conn.readChain.Some? then conn.readChain.value else [];
          NeedChainKeeps(g, w, e.c, conn.(readChain := Some(chain + e.taken), state := Reading(filled)), e.taken);
        }
      case Response(len) =>
        ConnFacts(g, w, e.c);
        ReleaseReadChain(g, w, e.c, conn.(readChain := None, state := Writing(conn.writeBuf, 0, len)));
      case LargeResponse(len) => LargeKeeps(g, w, e);
      case _ =>
    }
  }

  lemma WritableKeeps(g: Config, w: Worker, e: Event)
    requires Inv(g, w) && e.Writable?
    ensures Inv(g, HandleWritable(w, e))
  {
    hide Owned, Inv, CloseConn, ChainOf;
    CloseAfter(g, w, e.c);
    if e.c in w.conns && w.conns[e.c].state.Writing? && e.result.Wrote? {
      var conn := w.conns[e.c];
      ConnFacts(g, w, e.c);
      var Writing(b, written, total) := conn.state;
      if written + e.result.n >= total {
        var conn1 := conn.(writeChain := None, state := Reading(0));
        var w1 := Worker(w.free + ChainOf(conn.writeChain), w.conns[e.c := conn1]);
        DropWriteChain(w.free, conn, conn1);
        MoveKeeps(g, w, e.c, conn1, w1.free);
        CloseAfter(g, w1, e.c);
      } else {
        StateOnly(conn, Writing(b, written + e.result.n, total));
        MoveKeeps(g, w, e.c, conn.(state := Writing(b, written + e.result.n, total)), w.free);
      }
    }
  }

  lemma OwnedPair(taken: seq<nat>)
    requires |taken| == 2
    ensures Owned(Conn(Reading(0), taken[0], taken[1], None, None)) == multiset(taken)
  {
    assert taken == [taken[0], taken[1]];
  }

  lemma AcceptKeeps(g: Config, w: Worker, e: Event)
    requires Inv(g, w) && e.Accept? && g.bufferSize > 0 && Legal(g, w, e)
    ensures Inv(g, AcceptConn(g, w, e.c, e.taken))
  {
    hide Owned, Inv;
    if |w.conns| < g.maxConnections && |e.taken| >= 2 {
      OwnedPair(e.taken);
      NewConnKeeps(g, w, e.c, Conn(Reading(0), e.taken[0], e.taken[1], None, None), w.free - multiset(e.taken));
    }
  }

  lemma NewConnKeeps(g: Config, w: Worker, c: nat, conn: Conn, free: multiset<nat>)
    requires Inv(g, w) && c !in w.conns && ChainWhileWriting(conn) && free + Owned(conn) == w.free
    ensures Inv(g, Worker(free, w.conns[c := conn]))
  {
    hide Owned, Conserved, ChainWhileWriting;
    NewConnConserves(g, w, c, conn, free);
  }

  lemma NewConnConserves(g: Config, w: Worker, c: nat, conn: Conn, free: multiset<nat>)
    requires Conserved(g, w) && c !in w.conns && free + Owned(conn) == w.free
    ensures Conserved(g, Worker(free, w.conns[c := conn]))
  {
    hide Owned;
    assert w.conns - {c} == w.conns;
    forall i: nat
      ensures free[i] + Holders(w.conns[c := conn], i) == if i < g.poolSize then 1 else 0
    {
      HoldersUpdate(w.conns, c, conn, i);
      assert (free + Owned(conn))[i] == w.free[i];
    }
  }

  lemma StepKeepsInv(g: Config, w: Worker, e: Event)
    requires 0 < g.bufferSize && g.poolSize < CHAIN_MARKER
    requires Inv(g, w) && Legal(g, w, e)
    ensures Inv(g, Step(g, w, e))
  {
    hide HandleReadable, HandleWritable, Inv, AcceptConn, CloseConn;
    match e
    case Accept(_, _) => AcceptKeeps(g, w, e);
    case Readable(_, _, _, _, _) => ReadableKeeps(g, w, e);
    case Writable(_, _, _) => WritableKeeps(g, w, e);
    case Close(c) => CloseAfter(g, w, c);
  }

  // ---------------------------------------------------------------- runs

  ghost predicate Initial(g: Config, w: Worker) {
    w.conns == map[] && forall i: nat :: w.free[i] == if i < g.poolSize then 1 else 0
  }

  ghost predicate Run(g: Config, ws: seq<Worker>, es: seq<Event>)
    requires g.bufferSize > 0
  {
    && |ws| == |es| + 1 && Initial(g, ws[0])
    && forall i :: 0 <= i < |es| ==> Legal(g, ws[i], es[i]) && ws[i + 1] == Step(g, ws[i], es[i])
  }

  lemma {:induction false} RunInv(g: Config, ws: seq<Worker>, es: seq<Event>, n: nat)
    requires 0 < g.bufferSize && g.poolSize < CHAIN_MARKER
    requires Run(g, ws, es) && n < |ws|
    ensures Inv(g, ws[n])
    decreases n
  {
    if n > 0 {
      hide Inv, Step;
      RunInv(g, ws, es, n - 1);
      StepKeepsInv(g, ws[n - 1], es[n - 1]);
    }
  }

  lemma {:induction false} SoleHolder(conns: map<nat, Conn>, i: nat) returns (c: nat)
    requires Holders(conns, i) == 1
    ensures c in conns && Owned(conns[c])[i] == 1
    ensures forall d :: d in conns && d != c ==> i !in Owned(conns[d])
    decreases |conns|
  {
    hide Owned;
    var d: nat :| d in conns && Holders(conns, i) == Owned(conns[d])[i] + Holders(conns - {d}, i);
    if Owned(conns[d])[i] == 1 {
      c := d;
      NoHolder(conns - {d}, i);
      forall j | j in conns && j != c
        ensures i !in Owned(conns[j])
      {
        assert j in conns - {d} && (conns - {d})[j] == conns[j];
      }
    } else {
      c := SoleHolder(conns - {d}, i);
      forall j | j in conns && j != c
        ensures i !in Owned(conns[j])
      {
        assert j != d ==> j in conns - {d} && (conns - {d})[j] == conns[j];
      }
    }
  }

  lemma NoHolder(conns: map<nat, Conn>, i: nat)
    requires Holders(conns, i) == 0
    ensures forall c :: c in conns ==> i !in Owned(conns[c])
  {
    hide Owned;
    forall c | c in conns
      ensures i !in Owned(conns[c])
    {
      HoldersSplit(conns, c, i);
    }
  }

  /** On every run each pool index is either free, once, or owned once, by one role of one connection;
      and a write chain exists exactly while its connection writes with the chain marker. */
  lemma PoolPartition(g: Config, ws: seq<Worker>, es: seq<Event>, n: nat, i: nat)
    requires 0 < g.bufferSize && g.poolSize < CHAIN_MARKER
    requires Run(g, ws, es) && n < |ws|
    ensures forall c :: c in ws[n].conns ==> ChainWhileWriting(ws[n].conns[c])
    ensures i >= g.poolSize ==> i !in ws[n].free && forall c :: c in ws[n].conns ==> i !in Owned(ws[n].conns[c])
    ensures i < g.poolSize && i in ws[n].free ==>
              ws[n].free[i] == 1 && forall c :: c in ws[n].conns ==> i !in Owned(ws[n].conns[c])
    ensures i < g.poolSize && i !in ws[n].free ==>
              exists c :: c in ws[n].conns && Owned(ws[n].conns[c])[i] == 1
                          && forall d :: d in ws[n].conns && d != c ==> i !in Owned(ws[n].conns[d])
  {
    RunInv(g, ws, es, n);
    hide Owned;
    var w := ws[n];
    assert w.free[i] + Holders(w.conns, i) == if i < g.poolSize then 1 else 0;
    if Holders(w.conns, i) == 0 {
      NoHolder(w.conns, i);
    } else {
      var c := SoleHolder(w.conns, i);
    }
  }

  /** Closing every connection restores full availability: every index is free exactly once. */
  lemma AllClosedAllFree(g: Config, ws: seq<Worker>, es: seq<Event>, n: nat)
    requires 0 < g.bufferSize && g.poolSize < CHAIN_MARKER
    requires Run(g, ws, es) && n < |ws| && ws[n].conns == map[]
    ensures ws[n].free == ws[0].free
  {
    RunInv(g, ws, es, n);
    RunInv(g, ws, es, 0);
    forall i: nat
      ensures ws[n].free[i] == ws[0].free[i]
    {
      assert ws[n].free[i] + Holders(ws[n].conns, i) == ws[0].free[i] + Holders(ws[0].conns, i);
    }
  }
}
