/** The io_uring worker as the program keeps it: slabs, pool and ring updated in place. */
module Uring {
  import opened Base
  import opened Buffers
  import opened Connection
  import opened UringSpec
  import opened UringTokens
  import opened UringBuffers
  import opened UringBounds
  import opened UringLedger
  import opened BufRing

  class EventLoop {
    const config: Config
    const pool: BufferPool
    const ring: Ring
    var tokens: map<nat, OpType>
    var conns: map<nat, Conn>
    /** What the kernel was given and has not completed, and what went through each connection. */
    ghost var inflight: set<nat>
    ghost var traffic: map<nat, Traffic>

    ghost function View(): Worker
      reads this, pool, ring
    {
      Worker(tokens, conns, pool.buffers, pool.freeList, ring.queue, ring.held, inflight, traffic)
    }

    /** The parts fit together. */
    ghost predicate Assembled()
      reads this, pool, ring
    {
      && pool.size == config.bufferSize && pool.Valid()
      && ring.entries == config.ringEntries && ring.Valid() && ring.Conserved()
      && traffic.Keys == conns.Keys
      && (forall c :: c in conns && conns[c].readBuf.Some? ==> conns[c].readBuf.value < |pool.buffers|)
      && (forall c :: c in conns && conns[c].phase.Writing? ==> conns[c].phase.bufIdx < |pool.buffers|)
    }

    /** What every completion keeps, failed writes included. */
    ghost predicate Running()
      reads this, pool, ring
    {
      Assembled() && TokenInv(View()) && Bounded(config, View())
    }

    /** And what holds until the first failed write. */
    ghost predicate Valid()
      reads this, pool, ring
    {
      Running() && BufferInv(config, View())
    }

    constructor (config: Config, ringBits: nat)
      requires ringBits <= 15 && config.ringEntries == Pow2(ringBits)
      ensures Valid() && this.config == config && fresh(pool) && fresh(ring)
      ensures Initial(config, View())
    {
      this.config := config;
      pool := new BufferPool(config.poolSize, config.bufferSize);
      ring := new Ring(ringBits);
      tokens, conns := map[0 := Accept], map[];
      inflight, traffic := {0}, map[];
      new;
      assert tokens.Keys == {0};
      InitialTokens(config, View());
      InitialBuffers(config, View());
      InitialBounds(config, View());
    }

    /** The kernel picks a provided buffer for a receive. */
    ghost method KernelSelects()
      requires Running()
      modifies ring
      ensures Running() && (old(Valid()) ==> Valid())
      ensures View() == Step(config, old(View()), Select)
      ensures old(ring.queue) != [] ==> old(ring.queue)[0] in ring.held
    {
      hide TokenInv, BufferInv, Bounded;
      ghost var before := View();
      StepKeepsTokens(config, before, Select);
      StepKeepsBounds(config, before, Select);
      if BufferInv(config, before) {
        StepKeepsBuffers(config, before, Select);
      }
      if ring.queue != [] {
        var _ := ring.KernelTakes();
      }
    }

    // -------------------------------------------------------------- helpers

    method SubmitOp(token: nat, op: OpType)
      requires Assembled()
      modifies this`tokens, this`inflight
      ensures Assembled() && View() == Submit(old(View()), token, op)
    {
      tokens := tokens[token := op];
      inflight := inflight + {token};
    }

    method CloseConnection(c: nat)
      requires Assembled()
      modifies this`conns, this`traffic, pool`freeList
      ensures Assembled() && View() == Close(old(View()), c)
    {
      if c in conns {
        var conn := conns[c];
        conns := conns - {c};
        traffic := traffic - {c};
        if conn.phase.Writing? {
          pool.Free(conn.phase.bufIdx);
        }
        if conn.readBuf.Some? {
          pool.Free(conn.readBuf.value);
        }
      }
    }

    // -------------------------------------------------------------- handlers

    method OnAccept(result: int, keys: SlabKeys)
      requires Assembled() && keys.connId !in conns
      modifies this
      ensures Assembled() && View() == HandleAccept(config, old(View()), result, keys)
    {
      SubmitOp(keys.token, Accept);
      if result < 0 {
        return;
      }
      if |conns| >= config.maxConnections {
        return;
      }
      conns := conns[keys.connId := NEW_CONN];
      traffic := traffic[keys.connId := NO_TRAFFIC];
      SubmitOp(keys.readToken, Read(keys.connId));
    }

    /** Moves the unconsumed bytes of connection `c` to the start of its accumulation buffer. */
    method ShiftAccumulated(c: nat, consumed: nat, ghost input: Bytes)
      requires Assembled() && c in conns && conns[c].readBuf.Some? && conns[c].accumulated <= config.bufferSize
      modifies this`conns, this`traffic, pool`buffers
      ensures Assembled() && View() == Consume(old(View()), c, consumed, input)
      ensures |pool.buffers| == |old(pool.buffers)|
      ensures c in conns && conns[c].readBuf == old(conns[c].readBuf)
      ensures conns[c].accumulated == Max(old(conns[c].accumulated) - consumed, 0)
      ensures var i := conns[c].readBuf.value;
              BufAt(View(), i)[..conns[c].accumulated]
              == old(BufAt(View(), i)[Min(consumed, conns[c].accumulated)..conns[c].accumulated])
    {
      hide Ring.Valid, Ring.Conserved;
      var conn := conns[c];
      var i, total := conn.readBuf.value, conn.accumulated;
      traffic := traffic[c := traffic[c].(consumed := traffic[c].consumed + Slice(input, 0, Min(consumed, total)))];
      if consumed < total {
        pool.Write(i, 0, pool.buffers[i][consumed..total]);
        conns := conns[c := conn.(accumulated := total - consumed)];
      } else {
        conns := conns[c := conn.(accumulated := 0)];
      }
    }

    /** `start_writing` with the write submission. */
    method BeginWriting(c: nat, i: nat, len: nat, ghost response: Bytes, token: nat)
      requires Assembled() && c in conns && i < |pool.buffers| && len <= config.bufferSize
      modifies this
      ensures Assembled() && View() == StartWriting(old(View()), c, i, len, response, token)
    {
      hide Ring.Valid, Ring.Conserved;
      traffic := traffic[c := traffic[c].(responses := traffic[c].responses + response)];
      conns := conns[c := conns[c].(phase := Writing(i, 0, len))];
      SubmitOp(token, Write(c, i));
    }

    /** Process a copy of the accumulated input and act on the outcome; `out` is the write buffer after processing. */
    method OnProcessed(c: nat, outcome: Outcome, out: Bytes, token: nat)
      requires Assembled() && c in conns && conns[c].readBuf.Some? && conns[c].accumulated <= config.bufferSize
      requires |out| == config.bufferSize && (outcome.Response? ==> outcome.len <= config.bufferSize)
      modifies this, pool
      ensures Assembled() && View() == Respond(config, old(View()), c, outcome, out, token)
      ensures c in conns ==> conns[c].accumulated == Left(outcome, old(conns[c].accumulated))
    {
      hide Ring.Valid, Ring.Conserved, Consume, StartWriting, Close, Held, Slice, Left;
      ghost var before, input := View(), Held(View(), conns[c]);
      RespondLeaves(config, before, c, outcome, out, token);
      var idx := pool.Alloc();
      if idx.None? {
        CloseConnection(c);
        return;
      }
      var i := idx.value;
      pool.Write(i, 0, out);
      assert Splice(before.bufs[i], 0, out) == out;
      ghost var w1 := SetBuf(before, i, out).(free := before.free[..|before.free| - 1]);
      assert View() == w1;
      match outcome {
        case NeedData =>
          pool.Free(i);
          SubmitOp(token, Read(c));
        case Response(consumed, len) =>
          ShiftAccumulated(c, consumed, input);
          ConsumeKeeps(w1, c, consumed, input);
          BeginWriting(c, i, len, Slice(out, 0, len), token);
        case LargeResponse(consumed, data) =>
          ShiftAccumulated(c, consumed, input);
          ConsumeKeeps(w1, c, consumed, input);
          FinishLarge(c, i, data, token);
        case NeedChain =>
          pool.Free(i);
          CloseConnection(c);
        case Quit =>
          pool.Free(i);
          CloseConnection(c);
        case Failed =>
          pool.Free(i);
          CloseConnection(c);
      }
    }

    method FinishLarge(c: nat, i: nat, data: Bytes, token: nat)
      requires Assembled() && c in conns && i < |pool.buffers|
      modifies this, pool
      ensures Assembled()
      ensures var w := old(View());
              View() == if |data| <= config.bufferSize
                        then StartWriting(SetBuf(w, i, Overwrite(BufAt(w, i), 0, data)), c, i, |data|, data, token)
                        else Close(FreeBuf(w, i), c)
    {
      hide Ring.Valid, Ring.Conserved, StartWriting, Close;
      if |data| <= pool.size {
        pool.Write(i, 0, data);
        BeginWriting(c, i, |data|, data, token);
      } else {
        pool.Free(i);
        CloseConnection(c);
      }
    }

    /** `handle_read`: on each of its paths a provided buffer goes back to the ring exactly once. */
    method OnRead(c: nat, e: Event)
      requires Assembled() && e.Complete? && (c in conns ==> conns[c].accumulated <= config.bufferSize)
      requires e.bid.Some? ==> e.bid.value in ring.held
      requires |e.out| == config.bufferSize && (e.outcome.Response? ==> e.outcome.len <= config.bufferSize)
      modifies this, pool, ring
      ensures Assembled() && View() == HandleRead(config, old(View()), c, e)
      ensures e.bid.Some? ==>
                ring.queue == old(ring.queue) + [e.bid.value] && ring.held == old(ring.held) - {e.bid.value}
      ensures e.bid.None? ==> ring.queue == old(ring.queue) && ring.held == old(ring.held)
    {
      hide Respond, Close, CopyIn, Accumulator, Ring.Valid, Ring.Conserved;
      if e.result <= 0 {
        if e.bid.Some? {
          ring.Recycle(e.bid.value);
        }
        CloseConnection(c);
        return;
      }
      if e.bid.None? {
        CloseConnection(c);
        return;
      }
      if c !in conns {
        ring.Recycle(e.bid.value);
        return;
      }
      OnReceived(c, e);
    }

    /** Get or allocate the accumulation buffer. */
    method EnsureAccumulator(c: nat) returns (ok: bool)
      requires Assembled() && c in conns
      modifies this`conns, pool`freeList
      ensures Assembled() && View() == Accumulator(old(View()), c)
      ensures c in conns && (ok <==> conns[c].readBuf.Some?) && (!ok ==> View() == old(View()))
      ensures conns[c].accumulated == old(conns[c].accumulated)
    {
      ok := true;
      if conns[c].readBuf.None? {
        var idx := pool.Alloc();
        if idx.None? {
          ok := false;
        } else {
          conns := conns[c := conns[c].(readBuf := idx)];
        }
      }
    }

    /** A receive that delivered data: accumulate it, recycle the provided buffer, process. */
    method OnReceived(c: nat, e: Event)
      requires Assembled() && e.Complete? && e.bid.Some? && e.bid.value in ring.held
      requires c in conns && conns[c].accumulated <= config.bufferSize
      requires |e.out| == config.bufferSize && (e.outcome.Response? ==> e.outcome.len <= config.bufferSize)
      modifies this, pool, ring
      ensures Assembled()
      ensures ring.queue == old(ring.queue) + [e.bid.value] && ring.held == old(ring.held) - {e.bid.value}
      ensures var w0 := Recycle(old(View()), e.bid.value);
              var w1 := Accumulator(w0, c);
              View() == if w1.conns[c].readBuf.None? then Close(w0, c)
                        else if w1.conns[c].accumulated + |e.payload| > config.bufferSize then Close(w1, c)
                        else Respond(config, CopyIn(w1, c, e.payload), c, e.outcome, e.out, e.keys.token)
    {
      hide Respond, Close, CopyIn, Ring.Valid, Ring.Conserved;
      var ok := EnsureAccumulator(c);
      if !ok {
        ring.Recycle(e.bid.value);
        CloseConnection(c);
        return;
      }
      if conns[c].accumulated + |e.payload| > config.bufferSize {
        ring.Recycle(e.bid.value);
        CloseConnection(c);
        return;
      }
      CopyReceived(c, e.bid.value, e.payload);
      CopyInLater(old(View()), c, e.bid.value, e.payload);
      OnProcessed(c, e.outcome, e.out, e.keys.token);
    }

    /** Copy into the accumulation buffer, then give the provided buffer back. */
    method CopyReceived(c: nat, bid: nat, payload: Bytes)
      requires Assembled() && bid in ring.held && c in conns && conns[c].readBuf.Some?
      requires conns[c].accumulated + |payload| <= config.bufferSize
      modifies this, pool, ring
      ensures Assembled() && View() == Recycle(CopyIn(old(View()), c, payload), bid)
      ensures c in conns && conns[c].readBuf.Some? && conns[c].accumulated <= config.bufferSize
      ensures ring.queue == old(ring.queue) + [bid] && ring.held == old(ring.held) - {bid}
    {
      hide Ring.Valid, Ring.Conserved;
      pool.Write(conns[c].readBuf.value, conns[c].accumulated, payload);
      ring.Recycle(bid);
      conns := conns[c := conns[c].(accumulated := conns[c].accumulated + |payload|)];
      traffic := traffic[c := traffic[c].(received := traffic[c].received + payload)];
    }

    method OnWrite(c: nat, i: nat, result: int, token: nat)
      requires Assembled() && i < |pool.buffers|
      requires c in conns && conns[c].phase.Writing? ==>
                 result <= conns[c].phase.total - conns[c].phase.written && conns[c].phase.total <= config.bufferSize
      modifies this, pool`freeList
      ensures Assembled() && View() == HandleWrite(old(View()), c, i, result, token)
    {
      hide Close, Ring.Valid, Ring.Conserved;
      if result <= 0 {
        pool.Free(i);
        CloseConnection(c);
        return;
      }
      if c !in conns {
        pool.Free(i);
        return;
      }
      if conns[c].phase.Writing? {
        OnSent(c, i, result, token);
      }
    }

    /** A write that sent something: account for it, then read again or write the rest. */
    method OnSent(c: nat, i: nat, result: int, token: nat)
      requires Assembled() && i < |pool.buffers| && c in conns && conns[c].phase.Writing?
      requires 0 < result <= conns[c].phase.total - conns[c].phase.written && conns[c].phase.total <= config.bufferSize
      modifies this, pool`freeList
      ensures Assembled() && View() == HandleWrite(old(View()), c, i, result, token)
    {
      hide Ring.Valid, Ring.Conserved, Slice, BufAt;
      var conn := conns[c];
      var Writing(b, written, total) := conn.phase;
      ghost var t := traffic[c];
      traffic := traffic[c := t.(sent := t.sent + Slice(BufAt(View(), b), written, written + result))];
      if written + result >= total {
        pool.Free(i);
        Resume(c, Reading(0), token, Read(c));
      } else {
        Resume(c, Writing(b, written + result, total), token, Write(c, b));
      }
    }

    /** Enter a phase and submit the operation it waits for. */
    method Resume(c: nat, phase: DataState, token: nat, op: OpType)
      requires Assembled() && c in conns && (phase.Writing? ==> phase.bufIdx < |pool.buffers|)
      modifies this`conns, this`tokens, this`inflight
      ensures Assembled()
      ensures var w := old(View());
              View() == Submit(w.(conns := w.conns[c := w.conns[c].(phase := phase)]), token, op)
    {
      hide Ring.Valid, Ring.Conserved;
      conns := conns[c := conns[c].(phase := phase)];
      SubmitOp(token, op);
    }

    /** Free the token and dispatch on its operation. */
    method Dispatch(e: Event)
      requires Assembled() && e.Complete? && e.token in tokens && e.keys.connId !in conns
      requires e.bid.Some? ==> e.bid.value in ring.held
      requires |e.out| == config.bufferSize && (e.outcome.Response? ==> e.outcome.len <= config.bufferSize)
      requires forall c :: c in conns ==> conns[c].accumulated <= config.bufferSize
      requires tokens[e.token].Write? ==>
                 && tokens[e.token].bufIdx < |pool.buffers|
                 && var c := tokens[e.token].connId;
                   c in conns && conns[c].phase.Writing? ==>
                     && e.result <= conns[c].phase.total - conns[c].phase.written
                     && conns[c].phase.total <= config.bufferSize
      modifies this, pool, ring
      ensures Assembled() && View() == Step(config, old(View()), e)
    {
      hide HandleAccept, HandleRead, HandleWrite, Ring.Valid, Ring.Conserved;
      var op := tokens[e.token];
      tokens := tokens - {e.token};
      inflight := inflight - {e.token};
      match op {
        case Accept => OnAccept(e.result, e.keys);
        case Read(c) => OnRead(c, e);
        case Write(c, i) => OnWrite(c, i, e.result, e.keys.token);
      }
    }

    /** One turn of the completion loop, of a worker that may have seen failed writes. Buffer exclusivity and both
        flow equations, if they held before, hold afterwards exactly when this was not a failed write. */
    method OnCompletion(e: Event)
      requires Running() && e.Complete? && Legal(config, View(), e)
      modifies this, pool, ring
      ensures Running() && View() == Step(config, old(View()), e)
      ensures old(Valid()) ==> (Valid() <==> !FailedWrite(old(View()), e))
    {
      hide TokenInv, BufferInv, Bounded, Step, FailedWrite, Ring.Valid, Ring.Conserved;
      ghost var before := View();
      StepKeepsTokens(config, before, e);
      StepKeepsBounds(config, before, e);
      if BufferInv(config, before) {
        BuffersKeptIff(config, before, e);
      }
      CompletionFindsItsConnection(config, before, e);
      SubjectReady(config, before);
      Dispatch(e);
    }
  }

  /** When the provided buffer is recycled makes no difference to the copy. */
  lemma CopyInLater(w: Worker, c: nat, bid: nat, payload: Bytes)
    requires c in w.conns && c in w.traffic && Accumulator(w, c).conns[c].readBuf.Some?
    ensures Accumulator(Recycle(w, bid), c) == Recycle(Accumulator(w, c), bid)
    ensures Recycle(CopyIn(Accumulator(w, c), c, payload), bid) == CopyIn(Accumulator(Recycle(w, bid), c), c, payload)
  {
  }

  lemma SubjectReady(g: Config, w: Worker)
    requires Bounded(g, w)
    ensures forall c :: c in w.conns ==>
              && w.conns[c].accumulated <= g.bufferSize
              && (w.conns[c].phase.Writing? ==> w.conns[c].phase.total <= g.bufferSize)
  {
  }
}
