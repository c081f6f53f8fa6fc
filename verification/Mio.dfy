/** The mio worker as the program keeps it, as far as its buffers are concerned. */
module Mio {
  import opened Base
  import opened Buffers
  import opened Connection
  import opened MioSpec
  import opened MioResponses
  import opened MioInput

  class EventLoop {
    const config: Config
    const pool: BufferPool
    var conns: map<nat, Conn>

    ghost function View(): Worker
      reads this, pool
    {
      Worker(multiset(pool.freeList), conns)
    }

    ghost predicate Valid()
      reads this, pool
    {
      && pool.Valid() && pool.size == config.bufferSize > 0
      && |pool.buffers| == config.poolSize < CHAIN_MARKER
      && Inv(config, View())
    }

    constructor (config: Config)
      requires config.bufferSize > 0 && config.poolSize < CHAIN_MARKER
      ensures Valid() && this.config == config && fresh(pool) && Initial(config, View())
    {
      this.config := config;
      pool := new BufferPool(config.poolSize, config.bufferSize);
      conns := map[];
      new;
      DistinctOnce(pool.freeList);
      forall i: nat
        ensures multiset(pool.freeList)[i] == if i < config.poolSize then 1 else 0
      {
        assert i < config.poolSize ==> pool.freeList[i] == i;
      }
    }

    // -------------------------------------------------------------- closing

    method FreeAll(conn: Conn)
      requires pool.Valid() && conn.readBuf < |pool.buffers| && conn.writeBuf < |pool.buffers|
      requires forall i :: i in ChainOf(conn.readChain) || i in ChainOf(conn.writeChain) ==> i < |pool.buffers|
      modifies pool`freeList
      ensures pool.Valid() && multiset(pool.freeList) == old(multiset(pool.freeList)) + Owned(conn)
    {
      pool.Free(conn.readBuf);
      pool.Free(conn.writeBuf);
      FreeChain(conn.readChain);
      FreeChain(conn.writeChain);
    }

    method FreeChain(chain: Option<seq<nat>>)
      requires pool.Valid() && forall i :: i in ChainOf(chain) ==> i < |pool.buffers|
      modifies pool`freeList
      ensures pool.Valid() && multiset(pool.freeList) == old(multiset(pool.freeList)) + ChainOf(chain)
    {
      if chain.Some? {
        forall k | 0 <= k < |chain.value|
          ensures chain.value[k] < |pool.buffers|
        {
          assert chain.value[k] in ChainOf(chain);
        }
        pool.FreeMany(chain.value);
      }
    }

    method CloseConnection(c: nat)
      requires Valid()
      modifies this`conns, pool`freeList
      ensures Valid() && View() == CloseConn(old(View()), c)
    {
      hide Inv, Owned;
      if c in conns {
        InPoolOf(config, View(), c);
        CloseAfter(config, View(), c);
        var conn := conns[c];
        conns := conns - {c};
        FreeAll(conn);
      }
    }

    // -------------------------------------------------------------- accept

    /** One accepted socket; `c` is the slab key it gets. */
    method AcceptOne(c: nat) returns (ghost taken: seq<nat>)
      requires Valid() && c !in conns
      modifies this`conns, pool`freeList
      ensures Valid() && Legal(config, old(View()), Event.Accept(c, taken))
      ensures View() == AcceptConn(config, old(View()), c, taken)
      ensures if |old(conns)| < config.maxConnections && |old(pool.freeList)| >= 2
              then c in conns && conns == old(conns)[c := conns[c]] && Fresh(conns[c])
                   && |pool.freeList| + 2 == |old(pool.freeList)|
              else conns == old(conns) && pool.freeList == old(pool.freeList)
    {
      hide Inv, Owned, Shape, Missing, ChainOf;
      taken := [];
      if |conns| >= config.maxConnections {
        return;
      }
      ghost var before := View();
      var bufs;
      bufs, taken := TakePair();
      assert Legal(config, before, Event.Accept(c, taken));
      hide Legal;
      AcceptKeeps(config, before, Event.Accept(c, taken));
      if bufs.Some? {
        conns := conns[c := Conn(Reading(0), bufs.value.0, bufs.value.1, None, None)];
      }
    }

    /** A read and a write buffer, or nothing. */
    method TakePair() returns (r: Option<(nat, nat)>, ghost taken: seq<nat>)
      requires pool.Valid()
      modifies pool`freeList
      ensures pool.Valid() && |taken| == Min(2, |old(pool.freeList)|) && multiset(taken) <= multiset(old(pool.freeList))
      ensures r.None? ==> |taken| < 2 && pool.freeList == old(pool.freeList)
      ensures r.Some? ==> taken == [r.value.0, r.value.1] && |pool.freeList| + 2 == |old(pool.freeList)|
                          && multiset(pool.freeList) == multiset(old(pool.freeList)) - multiset(taken)
    {
      var readBuf := pool.Alloc();
      if readBuf.None? {
        return None, [];
      }
      var writeBuf := pool.Alloc();
      if writeBuf.None? {
        pool.Free(readBuf.value);
        return None, [readBuf.value];
      }
      taken := [readBuf.value, writeBuf.value];
      LastTwo(old(pool.freeList), pool.freeList, writeBuf.value, readBuf.value);
      r := Some((readBuf.value, writeBuf.value));
    }

    /** The accept loop, over the slab keys handed out for the pending sockets: the first `accepted` of them
        become connections, and the others are turned away only because the worker is full. */
    method AcceptPending(keys: seq<nat>) returns (accepted: nat)
      requires Valid() && Distinct(keys) && forall k :: k in keys ==> k !in conns
      modifies this`conns, pool`freeList
      ensures Valid() && accepted <= |keys| && Admitted(old(conns), conns, keys[..accepted])
      ensures accepted == |keys| || |conns| >= config.maxConnections || |pool.freeList| < 2
      ensures |conns| == |old(conns)| + accepted && |pool.freeList| + 2 * accepted == |old(pool.freeList)|
    {
      hide Valid, View, Legal, AcceptConn, Admitted;
      accepted := 0;
      AdmitNone(conns, keys);
      for i := 0 to |keys|
        invariant Valid() && accepted <= i
        invariant accepted == i || |conns| >= config.maxConnections || |pool.freeList| < 2
        invariant Admitted(old(conns), conns, keys[..accepted])
        invariant |conns| == |old(conns)| + accepted && |pool.freeList| + 2 * accepted == |old(pool.freeList)|
      {
        StillNew(old(conns), conns, keys, accepted, i);
        var room := |conns| < config.maxConnections && |pool.freeList| >= 2;
        ghost var before := conns;
        var taken := AcceptOne(keys[i]);
        if room {
          AdmitNext(old(conns), before, keys, i, conns[keys[i]]);
          accepted := accepted + 1;
        }
      }
    }

    // -------------------------------------------------------------- readable

    /** `handle_readable`: `data` is the response when it is a large one. */
    method OnReadable(c: nat, read: ReadResult, outcome: Outcome, data: Bytes, registered: bool)
      returns (ghost e: Event)
      requires Valid() && (outcome.LargeResponse? ==> outcome.len == |data|)
      modifies this, pool
      ensures e.Readable? && e.c == c && e.read == read && e.outcome == outcome && (e.ok ==> registered)
      ensures Valid() && Legal(config, old(View()), e) && View() == HandleReadable(config, old(View()), e)
      ensures e.ok && outcome.LargeResponse? ==> ChainHolds(pool.buffers, e.taken, data, pool.size)
      ensures Untouched(old(pool.buffers), pool.buffers, e.taken)
      ensures !Processes(old(View()), e) ==> e.taken == []
    {
      hide Inv, Owned, CloseConn, ChainStep, ResponseStep, LargeStep, Shape, Missing, ChainHolds, Untouched;
      UntouchedAny(pool.buffers);
      e := Readable(c, read, outcome, [], false);
      if c !in conns || !conns[c].state.Reading? || read.ReadBlocked? {
        return;
      }
      if read.ReadEnded? {
        CloseConnection(c);
        return;
      }
      match outcome {
        case NeedData =>
          NeedDataKeeps(config, View(), c, conns[c].state.filled + read.n);
          conns := conns[c := conns[c].(state := Reading(conns[c].state.filled + read.n))];
        case NeedChain(_, _) =>
          var taken := OnNeedChain(c, read.n, outcome);
          e := Readable(c, read, outcome, taken, registered);
        case Response(len) =>
          OnResponse(c, len, registered);
          e := Readable(c, read, outcome, [], registered);
        case LargeResponse(_) =>
          var taken, ok := OnLargeResponse(c, read.n, data, registered);
          e := Readable(c, read, outcome, taken, ok);
        case Quit => CloseConnection(c);
        case Failed => CloseConnection(c);
      }
    }

    /** `handle_readable` with its bytes: read behind the filled ones, process a copy, move what the request left to the
        front of the read buffer, then go on as the outcome says. `out` is the write buffer after processing. */
    method OnInput(c: nat, read: ReadResult, payload: Bytes, consumed: nat, out: Bytes, outcome: Outcome, data: Bytes,
                   registered: bool)
      returns (ghost e: Event)
      requires Valid() && (outcome.LargeResponse? ==> outcome.len == |data|) && |out| == config.bufferSize
      requires outcome.Response? ==> outcome.len <= config.bufferSize
      requires read.ReadGot? && c in conns && conns[c].state.Reading? ==>
                 |payload| == read.n && conns[c].state.filled + |payload| <= config.bufferSize
      modifies this, pool
      ensures e.Readable? && e.c == c && e.read == read && e.outcome == outcome && (e.ok ==> registered)
      ensures Valid()
      ensures Feeds(config, Fed(old(View()), old(pool.buffers)), Feed(e, payload, consumed, out),
                    Fed(View(), pool.buffers))
    {
      hide Inv, Owned, HandleReadable, Legal, Untouched, Taken, Feeds;
      ghost var before := View();
      if read.ReadGot? && c in conns && conns[c].state.Reading? {
        OwnBuffersDiffer(config, before, c);
        FillReadBuffer(c, payload, consumed, out, outcome);
      }
      ghost var filled := pool.buffers;
      e := OnReadable(c, read, outcome, data, registered);
      InputFeeds(config, before, old(pool.buffers), filled, Feed(e, payload, consumed, out), View(), pool.buffers);
    }

    /** What processing does to the connection's own two buffers. */
    method FillReadBuffer(c: nat, payload: Bytes, consumed: nat, out: Bytes, outcome: Outcome)
      requires pool.Valid() && c in conns && conns[c].state.Reading? && |out| == pool.size
      requires conns[c].readBuf < |pool.buffers| && conns[c].writeBuf < |pool.buffers|
      requires conns[c].readBuf != conns[c].writeBuf && conns[c].state.filled + |payload| <= pool.size
      modifies pool`buffers
      ensures pool.Valid()
      ensures var conn, was := conns[c], old(pool.buffers);
              var answers := outcome.Response? || outcome.LargeResponse?;
              && |pool.buffers| == |was| && pool.buffers[conn.writeBuf] == out
              && pool.buffers[conn.readBuf] == Taken(was[conn.readBuf], conn.state.filled, payload, answers, consumed)
              && forall i: nat :: i < |was| && i != conn.readBuf && i != conn.writeBuf ==> pool.buffers[i] == was[i]
    {
      var conn := conns[c];
      var i, total := conn.readBuf, conn.state.filled + |payload|;
      assert Splice(pool.buffers[conn.writeBuf], 0, out) == out;
      pool.Write(i, conn.state.filled, payload);
      pool.Write(conn.writeBuf, 0, out);
      if (outcome.Response? || outcome.LargeResponse?) && consumed < total {
        pool.Write(i, 0, pool.buffers[i][consumed..total]);
      }
    }

    method TakeMany(count: nat) returns (r: Option<seq<nat>>)
      requires pool.Valid()
      modifies pool`freeList
      ensures pool.Valid() && (r.None? <==> |multiset(old(pool.freeList))| < count)
      ensures r.None? ==> pool.freeList == old(pool.freeList)
      ensures r.Some? ==> |r.value| == count && multiset(r.value) <= multiset(old(pool.freeList))
                          && multiset(pool.freeList) == multiset(old(pool.freeList)) - multiset(r.value)
    {
      r := pool.AllocMany(count);
      if r.Some? {
        TakenFrom(multiset(old(pool.freeList)), multiset(pool.freeList), r.value);
      }
    }

    /** Accumulate into a chain: all missing buffers at once, or close. */
    method OnNeedChain(c: nat, n: nat, outcome: Outcome) returns (ghost taken: seq<nat>)
      requires Valid() && c in conns && conns[c].state.Reading? && outcome.NeedChain?
      modifies this`conns, pool`freeList
      ensures Valid() && Legal(config, old(View()), Readable(c, ReadGot(n), outcome, taken, true))
      ensures View() == ChainStep(config, old(View()), c, n, outcome, taken)
    {
      hide Inv, Owned, CloseConn, Missing, ChainOf, Shape;
      taken := [];
      ghost var before := View();
      if outcome.valueLen > config.maxValueSize {
        CloseConnection(c);
        return;
      }
      var missing := Missing(config, conns[c], outcome);
      var indices := TakeMany(missing);
      if indices.None? {
        CloseConnection(c);
        return;
      }
      taken := indices.value;
      WithinSum(taken, before.free, ChainOf(conns[c].readChain));
      ExtendReadChain(before, c, n, indices.value);
    }

    /** Push the new buffers; `before` is the worker before they left the pool. */
    method ExtendReadChain(ghost before: Worker, c: nat, n: nat, indices: seq<nat>)
      requires pool.Valid() && pool.size == config.bufferSize > 0 && |pool.buffers| == config.poolSize < CHAIN_MARKER
      requires Inv(config, before) && before.conns == conns && c in conns && conns[c].state.Reading?
      requires multiset(indices) <= before.free && multiset(pool.freeList) == before.free - multiset(indices)
      modifies this`conns
      ensures Valid()
      ensures var conn := before.conns[c];
              var chain := if conn.readChain.Some? then conn.readChain.value else [];
              View() == Worker(before.free - multiset(indices),
                               before.conns[c := conn.(readChain := Some(chain + indices),
                                                       state := Reading(conn.state.filled + n))])
    {
      hide Inv, Owned;
      var conn := conns[c];
      var chain := if conn.readChain.Some? then conn.readChain.value else [];
      var conn' := conn.(readChain := Some(chain + indices), state := Reading(conn.state.filled + n));
      NeedChainKeeps(config, before, c, conn', indices);
      conns := conns[c := conn'];
    }

    /** Releases the read chain and moves on to `state`. */
    method DropChain(c: nat, state: DataState)
      requires Valid() && c in conns
      requires ChainWhileWriting(conns[c].(readChain := None, state := state))
      modifies this`conns, pool`freeList
      ensures Valid() && c in conns
      ensures View() == Worker(old(View()).free + ChainOf(old(conns[c].readChain)),
                               old(conns)[c := old(conns[c]).(readChain := None, state := state)])
    {
      hide Inv, Owned, ChainOf, ChainWhileWriting;
      var conn := conns[c];
      InPoolOf(config, View(), c);
      ReleaseReadChain(config, View(), c, conn.(readChain := None, state := state));
      FreeChain(conn.readChain);
      conns := conns[c := conn.(readChain := None, state := state)];
    }

    /** A response that fits the write buffer. */
    method OnResponse(c: nat, len: nat, registered: bool)
      requires Valid() && c in conns && conns[c].state.Reading?
      modifies this`conns, pool`freeList
      ensures Valid() && View() == ResponseStep(old(View()), c, len, registered)
    {
      hide Inv, Owned, CloseConn, ChainOf;
      ConnFacts(config, View(), c);
      DropChain(c, Writing(conns[c].writeBuf, 0, len));
      if !registered {
        CloseConnection(c);
      }
    }

    /** A response that needs a chain of its own. */
    method OnLargeResponse(c: nat, n: nat, data: Bytes, registered: bool)
      returns (ghost taken: seq<nat>, ghost ok: bool)
      requires Valid() && c in conns && conns[c].state.Reading?
      modifies this, pool
      ensures Valid() && Legal(config, old(View()), Readable(c, ReadGot(n), LargeResponse(|data|), taken, ok))
      ensures View() == LargeStep(old(View()), c, |data|, taken, ok)
      ensures ok ==> registered && ChainHolds(pool.buffers, taken, data, pool.size)
      ensures Untouched(old(pool.buffers), pool.buffers, taken)
    {
      hide Inv, Owned, CloseConn, ChainOf, Shape, ChainHolds, Untouched;
      ConnFacts(config, View(), c);
      DropChain(c, conns[c].state);
      ghost var w1 := View();
      ok := false;
      var done, chain := FillChain(data);
      taken := chain;
      if !done {
        CloseConnection(c);
        return;
      }
      FinishLarge(w1, c, chain, |data|, registered);
      ok := registered;
      OverwriteTwice(old(conns), c, w1.conns[c],
                     w1.conns[c].(writeChain := Some(chain), state := Writing(CHAIN_MARKER, 0, |data|)));
    }

    /** Hand the filled chain to the connection; `w1` is the worker before the chain took its buffers. */
    method FinishLarge(ghost w1: Worker, c: nat, chain: seq<nat>, len: nat, registered: bool)
      requires pool.Valid() && pool.size == config.bufferSize > 0 && |pool.buffers| == config.poolSize < CHAIN_MARKER
      requires Inv(config, w1) && w1.conns == conns && c in conns && conns[c].state.Reading?
      requires multiset(chain) <= w1.free && multiset(pool.freeList) == w1.free - multiset(chain)
      modifies this`conns, pool`freeList
      ensures Valid()
      ensures View() == if registered
                        then Worker(w1.free - multiset(chain),
                                    w1.conns[c := w1.conns[c].(writeChain := Some(chain),
                                                               state := Writing(CHAIN_MARKER, 0, len))])
                        else CloseConn(w1, c)
    {
      hide Inv, Owned, CloseConn;
      ConnFacts(config, w1, c);
      InstallWriteChain(config, w1, c, chain, len);
      conns := conns[c := conns[c].(writeChain := Some(chain), state := Writing(CHAIN_MARKER, 0, len))];
      if !registered {
        CloseConnection(c);
        CloseEither(w1, c, chain, len);
      }
    }

    /** A fresh chain holding `data`; when the pool runs out everything goes back. */
    method FillChain(data: Bytes) returns (done: bool, indices: seq<nat>)
      requires Valid()
      modifies pool
      ensures pool.Valid() && Untouched(old(pool.buffers), pool.buffers, indices)
      ensures |pool.buffers| == |old(pool.buffers)|
      ensures done <==> |data| <= |old(pool.freeList)| * config.bufferSize
      ensures done ==> ChainHolds(pool.buffers, indices, data, config.bufferSize)
      ensures multiset(indices) <= multiset(old(pool.freeList))
      ensures done ==> Shape(|indices|, |data|, config.bufferSize)
                       && multiset(pool.freeList) == multiset(old(pool.freeList)) - multiset(indices)
      ensures !done ==> multiset(pool.freeList) == multiset(old(pool.freeList))
    {
      hide Inv, Shape, LastFill, Flat;
      FreeIsDistinct(config, View(), pool.freeList);
      EmptyShape(pool.buffers, config.bufferSize);
      var chain := new BufferChain(config.bufferSize);
      ghost var before := multiset(pool.freeList);
      var r := chain.Append(data, pool);
      done, indices := r.Done?, chain.buffers;
      assert before == multiset(pool.freeList) + multiset(chain.buffers);
      TakenFrom(before, multiset(pool.freeList), chain.buffers);
      assert [] + data[..Min(|data|, |old(pool.freeList)| * config.bufferSize)] == chain.Contents(pool);
      if done {
        FlatLength(pool.buffers, chain.buffers, chain.len, config.bufferSize);
        assert data[..|data|] == data;
      } else {
        chain.Release(pool);
      }
    }

    // -------------------------------------------------------------- writable

    method OnWritable(c: nat, result: WriteResult, registered: bool)
      requires Valid()
      modifies this`conns, pool`freeList
      ensures Valid() && View() == HandleWritable(old(View()), Writable(c, result, registered))
    {
      hide Inv, Owned, CloseConn;
      WritableKeeps(config, View(), Writable(c, result, registered));
      if c !in conns || !conns[c].state.Writing? {
        return;
      }
      var conn := conns[c];
      var Writing(b, written, total) := conn.state;
      if b == CHAIN_MARKER && conn.writeChain.None? {
        CloseConnection(c);
        return;
      }
      match result {
        case WriteBlocked =>
        case WriteFailed => CloseConnection(c);
        case Wrote(n) =>
          if written + n >= total {
            BackToReading(c);
            if !registered {
              CloseConnection(c);
            }
          } else {
            conns := conns[c := conn.(state := Writing(b, written + n, total))];
          }
      }
    }

    /** Write complete: release the chain if there is one. */
    method BackToReading(c: nat)
      requires Valid() && c in conns
      modifies this`conns, pool`freeList
      ensures Valid()
      ensures View() == Worker(old(View()).free + ChainOf(old(conns[c].writeChain)),
                               old(conns)[c := old(conns[c]).(writeChain := None, state := Reading(0))])
    {
      hide Inv, Owned, ChainOf;
      var conn := conns[c];
      InPoolOf(config, View(), c);
      ConnFacts(config, View(), c);
      var conn1 := conn.(writeChain := None, state := Reading(0));
      DropWriteChain(multiset(pool.freeList), conn, conn1);
      MoveKeeps(config, View(), c, conn1, multiset(pool.freeList) + ChainOf(conn.writeChain));
      FreeChain(conn.writeChain);
      conns := conns[c := conn1];
    }
  }

  /** The buffers `idxs`, in order, hold `data`. */
  ghost predicate ChainHolds(bufs: seq<Bytes>, idxs: seq<nat>, data: Bytes, size: nat) {
    SameSize(bufs, size) && InPool(bufs, idxs) && Flat(bufs, idxs, |data|, size) == data
  }

  /** A connection's two buffers are two, and in the pool. */
  lemma OwnBuffersDiffer(g: Config, w: Worker, c: nat)
    requires Inv(g, w) && c in w.conns
    ensures var conn := w.conns[c];
            conn.readBuf < g.poolSize && conn.writeBuf < g.poolSize && conn.readBuf != conn.writeBuf
  {
    OwnedInPool(g, w, c);
    HoldersSplit(w.conns, c, w.conns[c].readBuf);
  }

  /** The pool never hands out one of a connection's own two buffers. */
  lemma OwnNotTaken(g: Config, w: Worker, e: Event, i: nat)
    requires g.bufferSize > 0 && Inv(g, w) && Legal(g, w, e) && Processes(w, e)
    requires i == w.conns[e.c].readBuf || i == w.conns[e.c].writeBuf
    ensures i !in e.taken
  {
    var conn := w.conns[e.c];
    HoldersSplit(w.conns, e.c, i);
    assert Owned(conn)[i] >= 1 + ChainOf(conn.readChain)[i];
    NotTaken(w.free, ChainOf(conn.readChain), e.taken, i);
  }

  /** The worker's own writes, then those of the handler, are what the event may do to the bytes. */
  lemma InputFeeds(g: Config, w: Worker, bufs: seq<Bytes>, bufs1: seq<Bytes>, f: Feed, w': Worker, bufs': seq<Bytes>)
    requires g.bufferSize > 0 && Inv(g, w) && f.e.Readable? && Legal(g, w, f.e) && w' == Step(g, w, f.e)
    requires |bufs| == |bufs1| == |bufs'| == g.poolSize && SameSize(bufs, g.bufferSize) && SameSize(bufs', g.bufferSize)
    requires Untouched(bufs1, bufs', f.e.taken)
    requires !Processes(w, f.e) ==> bufs1 == bufs && f.e.taken == []
    requires Processes(w, f.e) ==>
               var conn := w.conns[f.e.c];
               && |f.payload| == f.e.read.n && conn.state.filled + |f.payload| <= g.bufferSize
               && conn.readBuf < g.poolSize && conn.writeBuf < g.poolSize && conn.readBuf != conn.writeBuf
               && bufs1[conn.readBuf] == AfterRead(bufs[conn.readBuf], conn.state.filled, f)
               && bufs1[conn.writeBuf] == f.out && |f.out| == g.bufferSize
               && (f.e.outcome.Response? ==> f.e.outcome.len <= g.bufferSize)
               && forall i: nat :: i < g.poolSize && i != conn.readBuf && i != conn.writeBuf ==> bufs1[i] == bufs[i]
    ensures Feeds(g, Fed(w, bufs), f, Fed(w', bufs'))
  {
    hide Legal, Step, Inv, AfterRead;
    if Processes(w, f.e) {
      var conn := w.conns[f.e.c];
      OwnNotTaken(g, w, f.e, conn.readBuf);
      OwnNotTaken(g, w, f.e, conn.writeBuf);
      assert conn.readBuf in Owned(conn) && conn.writeBuf in Owned(conn);
    }
  }

  lemma UntouchedAny(bufs: seq<Bytes>)
    ensures forall idxs :: Untouched(bufs, bufs, idxs)
  {
  }

  lemma WithinSum(taken: seq<nat>, free: multiset<nat>, chain: multiset<nat>)
    requires multiset(taken) <= free
    ensures multiset(taken) <= free + chain
  {
  }

  lemma LastTwo(was: seq<nat>, rest: seq<nat>, a: nat, b: nat)
    requires was == (rest + [a]) + [b]
    ensures multiset([b, a]) <= multiset(was) && multiset(rest) == multiset(was) - multiset([b, a])
  {
  }

  /** A connection as `accept_connections` inserts it. */
  predicate Fresh(conn: Conn) {
    conn.state == Reading(0) && conn.readChain.None? && conn.writeChain.None?
  }

  /** The connections are the earlier ones, unchanged, and one fresh one for each of `keys`. */
  ghost predicate Admitted(was: map<nat, Conn>, now: map<nat, Conn>, keys: seq<nat>) {
    && (forall c :: c in now <==> c in was || c in keys)
    && (forall c :: c in was ==> c in now && now[c] == was[c])
    && (forall c :: c in keys ==> c in now && Fresh(now[c]))
  }

  lemma AdmitNone(conns: map<nat, Conn>, keys: seq<nat>)
    ensures Admitted(conns, conns, keys[..0])
  {
  }

  lemma StillNew(was: map<nat, Conn>, now: map<nat, Conn>, keys: seq<nat>, accepted: nat, i: nat)
    requires Distinct(keys) && accepted <= i < |keys| && Admitted(was, now, keys[..accepted])
    requires forall k :: k in keys ==> k !in was
    ensures keys[i] !in now
  {
    assert keys[i] in keys;
  }

  lemma AdmitNext(was: map<nat, Conn>, now: map<nat, Conn>, keys: seq<nat>, i: nat, conn: Conn)
    requires Distinct(keys) && i < |keys| && Admitted(was, now, keys[..i])
    requires keys[i] !in now && Fresh(conn)
    ensures Admitted(was, now[keys[i] := conn], keys[..i + 1])
    ensures |now[keys[i] := conn]| == |now| + 1
  {
    hide Fresh;
    assert keys[..i + 1] == keys[..i] + [keys[i]];
    assert now[keys[i] := conn].Keys == now.Keys + {keys[i]};
  }

  lemma EmptyShape(bufs: seq<Bytes>, size: nat)
    requires SameSize(bufs, size)
    ensures Shape(0, 0, size) && Flat(bufs, [], 0, size) == []
  {
  }

  lemma TakenFrom(was: multiset<nat>, rest: multiset<nat>, taken: seq<nat>)
    requires was == rest + multiset(taken)
    ensures multiset(taken) <= was && rest == was - multiset(taken)
  {
  }

  lemma FreeIsDistinct(g: Config, w: Worker, s: seq<nat>)
    requires Inv(g, w) && w.free == multiset(s)
    ensures Distinct(s)
  {
    forall x: nat
      ensures multiset(s)[x] <= 1
    {
      assert w.free[x] + Holders(w.conns, x) <= 1;
    }
    OnceDistinct(s);
  }

  /** Closing after installing the chain frees the same buffers as closing before. */
  lemma CloseEither(w: Worker, c: nat, chain: seq<nat>, len: nat)
    requires c in w.conns && w.conns[c].writeChain.None? && multiset(chain) <= w.free
    ensures CloseConn(Worker(w.free - multiset(chain),
                             w.conns[c := w.conns[c].(writeChain := Some(chain),
                                                      state := Writing(CHAIN_MARKER, 0, len))]), c)
            == CloseConn(w, c)
  {
    var conn' := w.conns[c].(writeChain := Some(chain), state := Writing(CHAIN_MARKER, 0, len));
    NewWriteChain(w.free, w.conns[c], conn', chain);
    assert w.conns[c := conn'] - {c} == w.conns - {c};
  }

  lemma {:induction false} DistinctOnce(s: seq<nat>)
    requires Distinct(s)
    ensures forall x :: multiset(s)[x] <= 1
    ensures forall x :: x in s ==> multiset(s)[x] == 1
    decreases |s|
  {
    if s != [] {
      var init: seq<nat>, last: nat := s[..|s| - 1], s[|s| - 1];
      assert s == init + [last];
      DistinctOnce(init);
    }
  }

  lemma InPoolOf(g: Config, w: Worker, c: nat)
    requires Inv(g, w) && c in w.conns
    ensures w.conns[c].readBuf < g.poolSize && w.conns[c].writeBuf < g.poolSize
    ensures forall i :: i in ChainOf(w.conns[c].readChain) || i in ChainOf(w.conns[c].writeChain) ==> i < g.poolSize
  {
    OwnedInPool(g, w, c);
    forall i | i in ChainOf(w.conns[c].readChain) || i in ChainOf(w.conns[c].writeChain)
      ensures i < g.poolSize
    {
      assert i in Owned(w.conns[c]);
    }
  }
}
