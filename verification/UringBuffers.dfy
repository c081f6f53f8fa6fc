/** Exclusive buffers, no received byte lost, no sent byte wrong, until the first failed write. */
module UringBuffers {
  import opened Base
  import opened Buffers
  import opened UringSpec
  import opened UringTokens

  /** The role an index of the pool plays. */
  datatype Owner = Free | Accum(conn: nat) | Out(conn: nat)

  /** `own` gives each index its single role, and the free list and the connections say the same. */
  ghost predicate Owned(g: Config, w: Worker, own: map<nat, Owner>) {
    && |w.bufs| == g.poolSize && SameSize(w.bufs, g.bufferSize)
    && (forall i: nat :: i in own <==> i < g.poolSize)
    && Distinct(w.free)
    && (forall k :: 0 <= k < |w.free| ==> w.free[k] in own && own[w.free[k]] == Free)
    && (forall i :: i in own && own[i] == Free ==> i in w.free)
    && (forall c :: c in w.conns && w.conns[c].readBuf.Some? ==>
          w.conns[c].readBuf.value in own && own[w.conns[c].readBuf.value] == Accum(c))
    && (forall c :: c in w.conns && w.conns[c].phase.Writing? ==>
          w.conns[c].phase.bufIdx in own && own[w.conns[c].phase.bufIdx] == Out(c))
    && (forall i :: i in own && own[i].Accum? ==>
          own[i].conn in w.conns && w.conns[own[i].conn].readBuf == Some(i))
    && (forall i :: i in own && own[i].Out? ==>
          own[i].conn in w.conns && w.conns[own[i].conn].phase.Writing? && w.conns[own[i].conn].phase.bufIdx == i)
  }

  /** Bytes of the current response still to be sent. */
  function Unsent(w: Worker, conn: Conn): Bytes {
    if conn.phase.Writing? then Slice(BufAt(w, conn.phase.bufIdx), conn.phase.written, conn.phase.total) else []
  }

  /** Input and output of one connection add up. */
  ghost predicate Flow(g: Config, w: Worker, c: nat)
    requires c in w.conns && c in w.traffic
  {
    var conn, t := w.conns[c], w.traffic[c];
    && conn.accumulated <= g.bufferSize
    && (conn.readBuf.None? ==> conn.accumulated == 0)
    && t.received == t.consumed + Held(w, conn)
    && (conn.phase.Writing? ==> conn.phase.written <= conn.phase.total <= g.bufferSize)
    && t.responses == t.sent + Unsent(w, conn)
  }

  ghost predicate Flows(g: Config, w: Worker) {
    w.traffic.Keys == w.conns.Keys && forall c :: c in w.conns && c in w.traffic ==> Flow(g, w, c)
  }

  ghost predicate RingInv(g: Config, w: Worker) {
    && Distinct(w.inRing)
    && (forall k :: 0 <= k < |w.inRing| ==> w.inRing[k] < g.ringEntries && w.inRing[k] !in w.held)
    && (forall b :: b in w.held ==> b < g.ringEntries)
    && |w.inRing| + |w.held| == g.ringEntries
  }

  ghost predicate BufferInv(g: Config, w: Worker) {
    (exists own :: Owned(g, w, own)) && Flows(g, w) && RingInv(g, w)
  }

  // ---------------------------------------------------------------- frames

  /** Connections other than `c` are as they were, and so are the buffers they own. */
  ghost predicate Undisturbed(w: Worker, w': Worker, c: Option<nat>) {
    forall d :: d in w.conns && d in w.traffic && c != Some(d) ==>
      && d in w'.conns && d in w'.traffic && w'.conns[d] == w.conns[d] && w'.traffic[d] == w.traffic[d]
      && (w.conns[d].readBuf.Some? ==> BufAt(w', w.conns[d].readBuf.value) == BufAt(w, w.conns[d].readBuf.value))
      && (w.conns[d].phase.Writing? ==> BufAt(w', w.conns[d].phase.bufIdx) == BufAt(w, w.conns[d].phase.bufIdx))
  }

  lemma UndisturbedTrans(w: Worker, w1: Worker, w2: Worker, c: Option<nat>)
    requires Undisturbed(w, w1, c) && Undisturbed(w1, w2, c)
    ensures Undisturbed(w, w2, c)
  {
  }

  lemma FlowsAfter(g: Config, w: Worker, w': Worker, c: nat)
    requires Flows(g, w) && Undisturbed(w, w', Some(c))
    requires w'.traffic.Keys == w'.conns.Keys && w'.conns.Keys <= w.conns.Keys + {c}
    requires c in w'.conns && c in w'.traffic ==> Flow(g, w', c)
    ensures Flows(g, w')
  {
    hide Flow;
    forall d | d in w'.conns && d in w'.traffic
      ensures Flow(g, w', d)
    {
      if d != c {
        assert d in w'.conns.Keys && d in w.conns && d in w.traffic.Keys;
        FlowTransfer(g, w, w', d);
      }
    }
  }

  lemma FlowTransfer(g: Config, w: Worker, w': Worker, d: nat)
    requires d in w.conns && d in w.traffic && d in w'.conns && d in w'.traffic
    requires w'.conns[d] == w.conns[d] && w'.traffic[d] == w.traffic[d]
    requires w.conns[d].readBuf.Some? ==> BufAt(w', w.conns[d].readBuf.value) == BufAt(w, w.conns[d].readBuf.value)
    requires w.conns[d].phase.Writing? ==> BufAt(w', w.conns[d].phase.bufIdx) == BufAt(w, w.conns[d].phase.bufIdx)
    requires Flow(g, w, d)
    ensures Flow(g, w', d)
  {
    hide BufAt, Slice;
  }

  /** Writing to a buffer that only `c` owns, or nobody, disturbs no other connection. */
  lemma SetBufUndisturbed(g: Config, w: Worker, own: map<nat, Owner>, i: nat, b: Bytes, c: Option<nat>)
    requires Owned(g, w, own) && i in own
    requires own[i] == Free || (c.Some? && own[i].conn == c.value)
    ensures Undisturbed(w, SetBuf(w, i, b), c)
  {
  }

  // ---------------------------------------------------------------- stages of handle_read

  lemma TakeLastFree(g: Config, w: Worker, own: map<nat, Owner>)
    requires Owned(g, w, own) && w.free != []
    ensures var i: nat, rest: seq<nat> := w.free[|w.free| - 1], w.free[..|w.free| - 1];
            && i in own && own[i] == Free && i < |w.bufs| && Distinct(rest) && rest + [i] == w.free
            && (forall k :: 0 <= k < |rest| ==> rest[k] in own && own[rest[k]] == Free && rest[k] != i)
            && (forall j :: j in own && own[j] == Free && j != i ==> j in rest)
  {
    var i: nat, rest: seq<nat> := w.free[|w.free| - 1], w.free[..|w.free| - 1];
    assert rest + [i] == w.free;
    forall j | j in own && own[j] == Free && j != i
      ensures j in rest
    {
      assert j in w.free;
    }
  }

  /** Same free list, same roles of the connections' buffers, same shape of the pool. */
  ghost predicate SameRoles(w: Worker, w': Worker) {
    && w'.free == w.free && |w'.bufs| == |w.bufs| && w'.conns.Keys == w.conns.Keys
    && forall c :: c in w.conns && c in w'.conns ==>
         && w'.conns[c].readBuf == w.conns[c].readBuf
         && (w'.conns[c].phase.Writing? <==> w.conns[c].phase.Writing?)
         && (w.conns[c].phase.Writing? ==> w'.conns[c].phase.bufIdx == w.conns[c].phase.bufIdx)
  }

  lemma OwnedSame(g: Config, w: Worker, w': Worker, own: map<nat, Owner>)
    requires Owned(g, w, own) && SameRoles(w, w') && SameSize(w'.bufs, g.bufferSize)
    ensures Owned(g, w', own)
  {
    assert forall c :: c in w.conns <==> c in w'.conns.Keys;
  }

  /** Only `c`'s own record and traffic changed. */
  lemma OnlyConn(w: Worker, w': Worker, c: nat)
    requires c in w'.conns && c in w'.traffic && w'.bufs == w.bufs
    requires w'.conns == w.conns[c := w'.conns[c]] && w'.traffic == w.traffic[c := w'.traffic[c]]
    ensures Undisturbed(w, w', Some(c))
  {
  }

  /** `c`'s record, its traffic and one buffer that is free or its own. */
  lemma OnlyConnAndBuf(g: Config, w: Worker, own: map<nat, Owner>, w': Worker, c: nat, i: nat, b: Bytes)
    requires Owned(g, w, own) && i in own && (own[i] == Free || own[i].conn == c)
    requires c in w'.conns && c in w'.traffic && w'.bufs == SetBuf(w, i, b).bufs
    requires w'.conns == w.conns[c := w'.conns[c]] && w'.traffic == w.traffic[c := w'.traffic[c]]
    ensures Undisturbed(w, w', Some(c))
  {
    SetBufUndisturbed(g, w, own, i, b, Some(c));
    var w1 := SetBuf(w, i, b);
    hide Owned;
    OnlyConn(w1, w', c);
    UndisturbedTrans(w, w1, w', Some(c));
  }

  lemma AccumulatorOwned(g: Config, w: Worker, own: map<nat, Owner>, c: nat) returns (own': map<nat, Owner>)
    requires Owned(g, w, own) && c in w.conns && w.conns[c].readBuf.None? && w.free != []
    ensures Owned(g, Accumulator(w, c), own')
  {
    TakeLastFree(g, w, own);
    own' := own[w.free[|w.free| - 1] := Accum(c)];
  }

  lemma AccumulatorKeeps(g: Config, w: Worker, own: map<nat, Owner>, c: nat) returns (own': map<nat, Owner>)
    requires Owned(g, w, own) && Flows(g, w) && c in w.conns && c in w.traffic
    ensures Owned(g, Accumulator(w, c), own') && Flows(g, Accumulator(w, c))
    ensures Undisturbed(w, Accumulator(w, c), Some(c))
  {
    hide Owned, Undisturbed, Flows;
    FlowOf(g, w, c);
    var w' := Accumulator(w, c);
    if w.conns[c].readBuf.None? && w.free != [] {
      own' := AccumulatorOwned(g, w, own, c);
      assert w.traffic == w.traffic[c := w.traffic[c]];
      OnlyConn(w, w', c);
      assert Flow(g, w', c);
      FlowsAfter(g, w, w', c);
    } else {
      own' := own;
      assert w.traffic == w.traffic[c := w.traffic[c]] && w.conns == w.conns[c := w.conns[c]];
      OnlyConn(w, w', c);
    }
  }

  lemma FlowOf(g: Config, w: Worker, c: nat)
    requires Flows(g, w) && c in w.conns
    ensures w.traffic.Keys == w.conns.Keys && c in w.traffic && Flow(g, w, c)
  {
    assert c in w.traffic.Keys;
  }

  lemma LastFree(g: Config, w: Worker, own: map<nat, Owner>)
    requires Owned(g, w, own) && w.free != []
    ensures var i := w.free[|w.free| - 1];
            i in own && own[i] == Free && i < |w.bufs| && w.free[..|w.free| - 1] + [i] == w.free
  {
  }

  /** Nothing but tokens changed. */
  lemma FlowsSame(g: Config, w: Worker, w': Worker)
    requires Flows(g, w) && w'.conns == w.conns && w'.traffic == w.traffic && w'.bufs == w.bufs
    ensures Flows(g, w') && Undisturbed(w, w', None)
  {
    hide Flow;
    forall c | c in w'.conns && c in w'.traffic
      ensures Flow(g, w', c)
    {
      FlowTransfer(g, w, w', c);
    }
  }

  lemma OverwriteTake(buf: Bytes, off: nat, data: Bytes)
    requires off + |data| <= |buf|
    ensures |Overwrite(buf, off, data)| == |buf|
    ensures Slice(Overwrite(buf, off, data), 0, off + |data|) == Slice(buf, 0, off) + data
  {
  }

  lemma CopyInFlow(g: Config, w: Worker, c: nat, payload: Bytes)
    requires c in w.conns && c in w.traffic && w.conns[c].readBuf.Some? && w.conns[c].readBuf.value < |w.bufs|
    requires Flow(g, w, c) && w.conns[c].phase.Reading? && |BufAt(w, w.conns[c].readBuf.value)| == g.bufferSize
    requires w.conns[c].accumulated + |payload| <= g.bufferSize
    ensures Flow(g, CopyIn(w, c, payload), c)
  {
    hide Overwrite, Slice;
    var conn, t := w.conns[c], w.traffic[c];
    OverwriteTake(BufAt(w, conn.readBuf.value), conn.accumulated, payload);
    assert t.received + payload == t.consumed + (Held(w, conn) + payload);
  }

  lemma CopyInKeeps(g: Config, w: Worker, own: map<nat, Owner>, c: nat, payload: Bytes)
    requires Owned(g, w, own) && Flows(g, w) && c in w.conns && c in w.traffic && w.conns[c].readBuf.Some?
    requires w.conns[c].phase.Reading? && w.conns[c].accumulated + |payload| <= g.bufferSize
    ensures Owned(g, CopyIn(w, c, payload), own) && Flows(g, CopyIn(w, c, payload))
    ensures Undisturbed(w, CopyIn(w, c, payload), Some(c))
  {
    hide Owned, Undisturbed, Flows, Flow, Overwrite, Slice;
    FlowOf(g, w, c);
    var conn := w.conns[c];
    var i, w' := conn.readBuf.value, CopyIn(w, c, payload);
    var b := Overwrite(BufAt(w, i), conn.accumulated, payload);
    BufOf(g, w, own, c);
    OverwriteTake(BufAt(w, i), conn.accumulated, payload);
    SetBufSize(g, w, i, b);
    OwnedSame(g, w, w', own);
    OnlyConnAndBuf(g, w, own, w', c, i, b);
    CopyInFlow(g, w, c, payload);
    FlowsAfter(g, w, w', c);
  }

  lemma BufOf(g: Config, w: Worker, own: map<nat, Owner>, c: nat)
    requires Owned(g, w, own) && c in w.conns && w.conns[c].readBuf.Some?
    ensures var i := w.conns[c].readBuf.value;
            && i in own && own[i] == Accum(c) && i < |w.bufs|
            && |BufAt(w, i)| == g.bufferSize && SameSize(w.bufs, g.bufferSize)
  {
  }

  lemma SetBufSize(g: Config, w: Worker, i: nat, b: Bytes)
    requires SameSize(w.bufs, g.bufferSize) && |b| == g.bufferSize
    ensures SameSize(SetBuf(w, i, b).bufs, g.bufferSize)
  {
  }

  /** Writing to a free buffer harms nobody. */
  lemma ScribbleKeeps(g: Config, w: Worker, own: map<nat, Owner>, i: nat, b: Bytes)
    requires Owned(g, w, own) && Flows(g, w) && i in own && own[i] == Free && |b| == g.bufferSize
    ensures Owned(g, SetBuf(w, i, b), own) && Flows(g, SetBuf(w, i, b)) && Undisturbed(w, SetBuf(w, i, b), None)
  {
    SetBufUndisturbed(g, w, own, i, b, None);
    var w' := SetBuf(w, i, b);
    hide Flow;
    forall d | d in w'.conns && d in w'.traffic
      ensures Flow(g, w', d)
    {
      FlowTransfer(g, w, w', d);
    }
  }

  lemma ShiftDown(buf: Bytes, from: nat, to: nat)
    requires from <= to <= |buf|
    ensures var b := Overwrite(buf, 0, Slice(buf, from, to));
            |b| == |buf| && Slice(b, 0, to - from) == Slice(buf, from, to)
            && Slice(buf, 0, to) == Slice(buf, 0, from) + Slice(buf, from, to)
  {
  }

  lemma ConsumeFlow(g: Config, w: Worker, own: map<nat, Owner>, c: nat, consumed: nat, input: Bytes)
    requires Owned(g, w, own) && Flows(g, w) && c in w.conns && c in w.traffic && w.conns[c].readBuf.Some?
    requires w.conns[c].phase.Reading? && input == Held(w, w.conns[c])
    ensures Owned(g, Consume(w, c, consumed, input), own) && Flows(g, Consume(w, c, consumed, input))
    ensures Undisturbed(w, Consume(w, c, consumed, input), Some(c))
    ensures w.conns[c].phase == Consume(w, c, consumed, input).conns[c].phase
  {
    hide Owned, Undisturbed, Flows, Overwrite, Slice;
    FlowOf(g, w, c);
    BufOf(g, w, own, c);
    var conn, t := w.conns[c], w.traffic[c];
    var i, total, w' := conn.readBuf.value, conn.accumulated, Consume(w, c, consumed, input);
    var buf, k := BufAt(w, i), Min(consumed, total);
    var b := if consumed < total then Overwrite(buf, 0, Slice(buf, consumed, total)) else buf;
    ShiftDown(buf, k, total);
    SetBufSize(g, w, i, b);
    assert w'.bufs == SetBuf(w, i, b).bufs;
    OwnedSame(g, w, w', own);
    OnlyConnAndBuf(g, w, own, w', c, i, b);
    ConsumedFlow(g, w, w', c, consumed, input);
    FlowsAfter(g, w, w', c);
  }

  lemma SliceOfSlice(buf: Bytes, k: nat, total: nat)
    requires k <= total <= |buf|
    ensures Slice(Slice(buf, 0, total), 0, k) == Slice(buf, 0, k)
  {
  }

  lemma ConsumedFlow(g: Config, w: Worker, w': Worker, c: nat, consumed: nat, input: Bytes)
    requires c in w.conns && c in w.traffic && w.conns[c].readBuf.Some? && w.conns[c].readBuf.value < |w.bufs|
    requires Flow(g, w, c) && w.conns[c].phase.Reading? && input == Held(w, w.conns[c])
    requires w' == Consume(w, c, consumed, input)
    requires |BufAt(w, w.conns[c].readBuf.value)| == g.bufferSize
    ensures Flow(g, w', c)
  {
    var conn, t := w.conns[c], w.traffic[c];
    var buf, total := BufAt(w, conn.readBuf.value), conn.accumulated;
    var k := Min(consumed, total);
    ShiftDown(buf, k, total);
    SliceOfSlice(buf, k, total);
    SliceEmpty(buf, total);
    SliceEmpty(buf, 0);
    hide Overwrite, Slice, SetBuf;
    assert t.consumed + (Slice(buf, 0, k) + Slice(buf, k, total))
           == t.consumed + Slice(buf, 0, k) + Slice(buf, k, total);
  }

  /** Consuming touches the accumulation buffer only. */
  lemma ConsumeElsewhere(w: Worker, c: nat, consumed: nat, input: Bytes, i: nat)
    requires c in w.conns && c in w.traffic && w.conns[c].readBuf.Some? && w.conns[c].readBuf.value != i
    ensures BufAt(Consume(w, c, consumed, input), i) == BufAt(w, i)
  {
  }

  lemma StartWritingKeeps(g: Config, w: Worker, own: map<nat, Owner>, c: nat, len: nat, response: Bytes, token: nat)
    returns (own': map<nat, Owner>)
    requires Owned(g, w, own) && Flows(g, w) && c in w.conns && c in w.traffic && w.conns[c].phase.Reading?
    requires w.free != [] && len <= g.bufferSize && response == Slice(BufAt(w, w.free[|w.free| - 1]), 0, len)
    ensures var w' := StartWriting(w.(free := w.free[..|w.free| - 1]), c, w.free[|w.free| - 1], len, response, token);
            Owned(g, w', own') && Flows(g, w') && Undisturbed(w, w', Some(c))
  {
    hide Owned, Undisturbed, Flows, Flow, Slice;
    FlowOf(g, w, c);
    LastFree(g, w, own);
    var i, w0 := w.free[|w.free| - 1], w.(free := w.free[..|w.free| - 1]);
    BufLength(g, w, own, i);
    own' := StartWritingOwned(g, w, own, c, len, response, token);
    var w' := StartWriting(w0, c, i, len, response, token);
    OnlyConn(w, w', c);
    FlowTransfer(g, w, w0, c);
    StartWritingFlow(g, w0, c, i, len, response, token);
    FlowsAfter(g, w, w', c);
  }

  lemma StartWritingFlow(g: Config, w: Worker, c: nat, i: nat, len: nat, response: Bytes, token: nat)
    requires c in w.conns && c in w.traffic && w.conns[c].phase.Reading? && Flow(g, w, c)
    requires len <= g.bufferSize && response == Slice(BufAt(w, i), 0, len)
    ensures Flow(g, StartWriting(w, c, i, len, response, token), c)
  {
    hide Slice;
    assert w.traffic[c].responses == w.traffic[c].sent + [];
  }

  lemma StartWritingOwned(g: Config, w: Worker, own: map<nat, Owner>, c: nat, len: nat, response: Bytes, token: nat)
    returns (own': map<nat, Owner>)
    requires Owned(g, w, own) && c in w.conns && c in w.traffic && w.conns[c].phase.Reading? && w.free != []
    ensures var w0 := w.(free := w.free[..|w.free| - 1]);
            Owned(g, StartWriting(w0, c, w.free[|w.free| - 1], len, response, token), own')
  {
    TakeLastFree(g, w, own);
    own' := own[w.free[|w.free| - 1] := Out(c)];
  }

  // ---------------------------------------------------------------- closing

  lemma FreedKeeps(g: Config, free: seq<nat>, i: nat)
    requires Distinct(free) && i !in free
    ensures Distinct(free + [i])
  {
  }

  lemma CloseKeeps(g: Config, w: Worker, own: map<nat, Owner>, c: nat) returns (own': map<nat, Owner>)
    requires Owned(g, w, own) && Flows(g, w) && c in w.conns
    ensures Owned(g, Close(w, c), own') && Flows(g, Close(w, c)) && Undisturbed(w, Close(w, c), Some(c))
  {
    hide Owned, Flows, Undisturbed;
    own' := map i | i in own :: if own[i] != Free && own[i].conn == c then Free else own[i];
    CloseDistinct(g, w, own, c);
    CloseOwned(g, w, own, own', c);
    FlowOf(g, w, c);
    CloseUndisturbed(w, c);
    FlowsAfter(g, w, Close(w, c), c);
  }

  lemma CloseUndisturbed(w: Worker, c: nat)
    ensures Undisturbed(w, Close(w, c), Some(c))
  {
  }

  lemma CloseDistinct(g: Config, w: Worker, own: map<nat, Owner>, c: nat)
    requires Owned(g, w, own) && c in w.conns
    ensures Distinct(Close(w, c).free)
  {
    var conn := w.conns[c];
    var free := w.free;
    if conn.phase.Writing? {
      FreedKeeps(g, free, conn.phase.bufIdx);
      free := free + [conn.phase.bufIdx];
    }
    if conn.readBuf.Some? {
      assert conn.readBuf.value !in free;
      FreedKeeps(g, free, conn.readBuf.value);
    }
  }

  lemma CloseFree(g: Config, w: Worker, own: map<nat, Owner>, own': map<nat, Owner>, c: nat)
    requires Owned(g, w, own) && c in w.conns
    requires forall i :: i in own' <==> i in own
    requires forall i :: i in own ==> own'[i] == if own[i] != Free && own[i].conn == c then Free else own[i]
    ensures forall i :: i in own' && own'[i] == Free ==> i in Close(w, c).free
    ensures forall k :: 0 <= k < |Close(w, c).free| ==>
              Close(w, c).free[k] in own' && own'[Close(w, c).free[k]] == Free
  {
    var w' := Close(w, c);
    forall i | i in own' && own'[i] == Free
      ensures i in w'.free
    {
      if own[i] == Free {
        assert i in w.free;
      }
    }
    forall k | 0 <= k < |w'.free|
      ensures w'.free[k] in own' && own'[w'.free[k]] == Free
    {
      assert k < |w.free| ==> w'.free[k] == w.free[k];
    }
  }

  lemma CloseOwned(g: Config, w: Worker, own: map<nat, Owner>, own': map<nat, Owner>, c: nat)
    requires Owned(g, w, own) && c in w.conns
    requires forall i :: i in own' <==> i in own
    requires forall i :: i in own ==> own'[i] == if own[i] != Free && own[i].conn == c then Free else own[i]
    requires Distinct(Close(w, c).free)
    ensures Owned(g, Close(w, c), own')
  {
    CloseFree(g, w, own, own', c);
    CloseRoles(g, w, own, own', c);
    var w' := Close(w, c);
    assert w'.conns == w.conns - {c} && w'.bufs == w.bufs;
    hide Close, Distinct;
  }

  lemma CloseRoles(g: Config, w: Worker, own: map<nat, Owner>, own': map<nat, Owner>, c: nat)
    requires Owned(g, w, own) && c in w.conns
    requires forall i :: i in own' <==> i in own
    requires forall i :: i in own ==> own'[i] == if own[i] != Free && own[i].conn == c then Free else own[i]
    ensures var conns := w.conns - {c};
            && (forall d :: d in conns && conns[d].readBuf.Some? ==>
                  conns[d].readBuf.value in own' && own'[conns[d].readBuf.value] == Accum(d))
            && (forall d :: d in conns && conns[d].phase.Writing? ==>
                  conns[d].phase.bufIdx in own' && own'[conns[d].phase.bufIdx] == Out(d))
            && (forall i :: i in own' && own'[i].Accum? ==>
                  own'[i].conn in conns && conns[own'[i].conn].readBuf == Some(i))
            && (forall i :: i in own' && own'[i].Out? ==>
                  && own'[i].conn in conns && conns[own'[i].conn].phase.Writing?
                  && conns[own'[i].conn].phase.bufIdx == i)
  {
    hide Distinct, SameSize;
  }

  // ---------------------------------------------------------------- handle_read

  lemma FreeFieldOnly(w: Worker, c: nat, consumed: nat, input: Bytes, f: seq<nat>)
    requires c in w.conns && w.conns[c].readBuf.Some? && c in w.traffic
    ensures Consume(w.(free := f), c, consumed, input) == Consume(w, c, consumed, input).(free := f)
  {
  }

  /** The write buffer just allocated is not the accumulation buffer, so the input copy is still what is held. */
  lemma InputStays(g: Config, w: Worker, own: map<nat, Owner>, c: nat, i: nat, out: Bytes)
    requires Owned(g, w, own) && c in w.conns && w.conns[c].readBuf.Some? && i in own && own[i] == Free
    ensures w.conns[c].readBuf.value != i && Held(SetBuf(w, i, out), w.conns[c]) == Held(w, w.conns[c])
    ensures i < |w.bufs| ==> BufAt(SetBuf(w, i, out), i) == out
  {
  }

  lemma RespondKeeps(g: Config, w: Worker, own: map<nat, Owner>, c: nat, outcome: Outcome, out: Bytes, token: nat)
    returns (own': map<nat, Owner>)
    requires Owned(g, w, own) && Flows(g, w) && c in w.conns && c in w.traffic && w.conns[c].readBuf.Some?
    requires w.conns[c].phase.Reading? && |out| == g.bufferSize && (outcome.Response? ==> outcome.len <= g.bufferSize)
    ensures var w' := Respond(g, w, c, outcome, out, token);
            Owned(g, w', own') && Flows(g, w') && Undisturbed(w, w', Some(c))
  {
    hide Owned, Flows, Undisturbed, Consume, StartWriting, Close, Held, BufAt, Slice;
    var input := Held(w, w.conns[c]);
    if w.free == [] {
      own' := CloseKeeps(g, w, own, c);
    } else {
      LastFree(g, w, own);
      var i: nat, rest: seq<nat> := w.free[|w.free| - 1], w.free[..|w.free| - 1];
      var w1 := SetBuf(w, i, out);
      ScribbleKeeps(g, w, own, i, out);
      NarrowTo(w, w1, c);
      InputStays(g, w, own, c, i, out);
      assert FreeBuf(w1.(free := rest), i) == w1;
      match outcome
      case NeedData =>
        own' := own;
        SubmitKeeps(g, w1, own, token, Read(c));
        NarrowTo(w1, Submit(w1, token, Read(c)), c);
        UndisturbedTrans(w, w1, Submit(w1, token, Read(c)), Some(c));
      case Response(consumed, len) =>
        FreeFieldOnly(w1, c, consumed, input, rest);
        ConsumeFlow(g, w1, own, c, consumed, input);
        ConsumeKeeps(w1, c, consumed, input);
        ConsumeElsewhere(w1, c, consumed, input, i);
        var w2 := Consume(w1, c, consumed, input);
        own' := StartWritingKeeps(g, w2, own, c, len, Slice(out, 0, len), token);
        UndisturbedTrans(w, w1, w2, Some(c));
        UndisturbedTrans(w, w2, StartWriting(w2.(free := rest), c, i, len, Slice(out, 0, len), token), Some(c));
      case LargeResponse(consumed, data) =>
        own' := LargeKeeps(g, w, w1, own, c, consumed, data, out, token);
      case _ =>
        own' := CloseKeeps(g, w1, own, c);
        UndisturbedTrans(w, w1, Close(w1, c), Some(c));
    }
  }

  lemma NarrowTo(w: Worker, w': Worker, c: nat)
    requires Undisturbed(w, w', None)
    ensures Undisturbed(w, w', Some(c))
  {
  }

  lemma SubmitKeeps(g: Config, w: Worker, own: map<nat, Owner>, token: nat, op: OpType)
    requires Owned(g, w, own) && Flows(g, w)
    ensures Owned(g, Submit(w, token, op), own) && Flows(g, Submit(w, token, op))
    ensures Undisturbed(w, Submit(w, token, op), None)
  {
    hide Owned, Flows, Undisturbed;
    SizesOf(g, w, own);
    OwnedSame(g, w, Submit(w, token, op), own);
    FlowsSame(g, w, Submit(w, token, op));
  }

  lemma SizesOf(g: Config, w: Worker, own: map<nat, Owner>)
    requires Owned(g, w, own)
    ensures SameSize(w.bufs, g.bufferSize)
  {
  }

  lemma LargeKeeps(g: Config, w: Worker, w1: Worker, own: map<nat, Owner>, c: nat, consumed: nat, data: Bytes,
                   out: Bytes, token: nat)
    returns (own': map<nat, Owner>)
    requires Owned(g, w, own) && c in w.conns && c in w.traffic && w.conns[c].readBuf.Some?
    requires w.conns[c].phase.Reading? && c in w1.conns && c in w1.traffic && |out| == g.bufferSize
    requires w.free != [] && w1 == SetBuf(w, w.free[|w.free| - 1], out)
    requires Owned(g, w1, own) && Flows(g, w1) && Undisturbed(w, w1, Some(c))
    ensures var w' := Respond(g, w, c, LargeResponse(consumed, data), out, token);
            Owned(g, w', own') && Flows(g, w') && Undisturbed(w, w', Some(c))
  {
    hide Owned, Flows, Undisturbed, Consume, StartWriting, Close, Overwrite, Held, BufAt, Slice;
    LastFree(g, w, own);
    var input := Held(w, w.conns[c]);
    var i: nat, rest: seq<nat> := w.free[|w.free| - 1], w.free[..|w.free| - 1];
    InputStays(g, w, own, c, i, out);
    FreeFieldOnly(w1, c, consumed, input, rest);
    ConsumeFlow(g, w1, own, c, consumed, input);
    ConsumeKeeps(w1, c, consumed, input);
    var w2 := Consume(w1, c, consumed, input);
    UndisturbedTrans(w, w1, w2, Some(c));
    if |data| <= g.bufferSize {
      own' := LargeWriting(g, w2, own, c, data, token);
      LargeFrame(w2, i, Overwrite(BufAt(w2, i), 0, data), rest);
      UndisturbedTrans(w, w2, StartWriting(SetBuf(w2.(free := rest), i, Overwrite(BufAt(w2, i), 0, data)),
                                           c, i, |data|, data, token), Some(c));
    } else {
      assert FreeBuf(w2.(free := rest), i) == w2;
      own' := CloseKeeps(g, w2, own, c);
      UndisturbedTrans(w, w2, Close(w2, c), Some(c));
    }
  }

  lemma LargeFrame(w: Worker, i: nat, b: Bytes, f: seq<nat>)
    ensures SetBuf(w.(free := f), i, b) == SetBuf(w, i, b).(free := f) && BufAt(w.(free := f), i) == BufAt(w, i)
  {
  }

  /** A response that was produced elsewhere is copied into the write buffer first. */
  lemma LargeWriting(g: Config, w: Worker, own: map<nat, Owner>, c: nat, data: Bytes, token: nat)
    returns (own': map<nat, Owner>)
    requires Owned(g, w, own) && Flows(g, w) && c in w.conns && c in w.traffic && w.conns[c].phase.Reading?
    requires w.free != [] && |data| <= g.bufferSize
    ensures var i := w.free[|w.free| - 1];
            var w0 := w.(free := w.free[..|w.free| - 1]);
            var w' := StartWriting(SetBuf(w0, i, Overwrite(BufAt(w, i), 0, data)), c, i, |data|, data, token);
            Owned(g, w', own') && Flows(g, w') && Undisturbed(w, w', Some(c))
  {
    hide Owned, Flows, Undisturbed, StartWriting, Overwrite, Slice;
    LastFree(g, w, own);
    var i: nat, rest: seq<nat> := w.free[|w.free| - 1], w.free[..|w.free| - 1];
    BufLength(g, w, own, i);
    var b := Overwrite(BufAt(w, i), 0, data);
    OverwriteTake(BufAt(w, i), 0, data);
    SliceEmpty(BufAt(w, i), 0);
    assert [] + data == data;
    var w1 := SetBuf(w, i, b);
    ScribbleKeeps(g, w, own, i, b);
    NarrowTo(w, w1, c);
    own' := StartWritingKeeps(g, w1, own, c, |data|, data, token);
    LargeFrame(w, i, b, rest);
    UndisturbedTrans(w, w1, StartWriting(w1.(free := rest), c, i, |data|, data, token), Some(c));
  }

  lemma BufLength(g: Config, w: Worker, own: map<nat, Owner>, i: nat)
    requires Owned(g, w, own) && i in own
    ensures |BufAt(w, i)| == g.bufferSize
  {
  }

  lemma RecycleSame(g: Config, w: Worker, own: map<nat, Owner>, w': Worker)
    requires Owned(g, w, own) && Flows(g, w)
    requires w'.conns == w.conns && w'.traffic == w.traffic && w'.bufs == w.bufs && w'.free == w.free
    ensures Owned(g, w', own) && Flows(g, w') && Undisturbed(w, w', None)
  {
    hide Owned, Flows, Undisturbed;
    SizesOf(g, w, own);
    OwnedSame(g, w, w', own);
    FlowsSame(g, w, w');
  }

  lemma ReadKeeps(g: Config, w: Worker, own: map<nat, Owner>, c: nat, e: Event) returns (own': map<nat, Owner>)
    requires Owned(g, w, own) && Flows(g, w) && e.Complete? && c in w.conns && w.conns[c].phase.Reading?
    requires |e.out| == g.bufferSize && (e.outcome.Response? ==> e.outcome.len <= g.bufferSize)
    ensures var w' := HandleRead(g, w, c, e);
            Owned(g, w', own') && Flows(g, w') && Undisturbed(w, w', Some(c))
  {
    hide Owned, Flows, Undisturbed, Respond, Close;
    FlowOf(g, w, c);
    var w0 := if e.bid.Some? then Recycle(w, e.bid.value) else w;
    RecycleSame(g, w, own, w0);
    NarrowTo(w, w0, c);
    if e.result <= 0 || e.bid.None? {
      own' := CloseKeeps(g, w0, own, c);
      UndisturbedTrans(w, w0, Close(w0, c), Some(c));
    } else {
      own' := ReceiveKeeps(g, w0, own, c, e);
      UndisturbedTrans(w, w0, HandleRead(g, w, c, e), Some(c));
    }
  }

  /** The part of handle_read behind the recycling of the provided buffer. */
  lemma ReceiveKeeps(g: Config, w0: Worker, own: map<nat, Owner>, c: nat, e: Event) returns (own': map<nat, Owner>)
    requires Owned(g, w0, own) && Flows(g, w0) && e.Complete?
    requires c in w0.conns && c in w0.traffic && w0.conns[c].phase.Reading?
    requires |e.out| == g.bufferSize && (e.outcome.Response? ==> e.outcome.len <= g.bufferSize)
    ensures var w1 := Accumulator(w0, c);
            var w' := if w1.conns[c].readBuf.None? then Close(w0, c)
                      else if w1.conns[c].accumulated + |e.payload| > g.bufferSize then Close(w1, c)
                      else Respond(g, CopyIn(w1, c, e.payload), c, e.outcome, e.out, e.keys.token);
            Owned(g, w', own') && Flows(g, w') && Undisturbed(w0, w', Some(c))
  {
    hide Owned, Flows, Undisturbed, Respond, Close;
    var w1 := Accumulator(w0, c);
    var own1 := AccumulatorKeeps(g, w0, own, c);
    if w1.conns[c].readBuf.None? {
      own' := CloseKeeps(g, w0, own, c);
    } else if w1.conns[c].accumulated + |e.payload| > g.bufferSize {
      own' := CloseKeeps(g, w1, own1, c);
      UndisturbedTrans(w0, w1, Close(w1, c), Some(c));
    } else {
      var w2 := CopyIn(w1, c, e.payload);
      CopyInKeeps(g, w1, own1, c, e.payload);
      UndisturbedTrans(w0, w1, w2, Some(c));
      own' := RespondKeeps(g, w2, own1, c, e.outcome, e.out, e.keys.token);
      UndisturbedTrans(w0, w2, Respond(g, w2, c, e.outcome, e.out, e.keys.token), Some(c));
    }
  }

  // ---------------------------------------------------------------- handle_write and handle_accept

  lemma SliceSplit(buf: Bytes, a: nat, b: nat, c: nat)
    requires a <= b <= c <= |buf|
    ensures Slice(buf, a, b) + Slice(buf, b, c) == Slice(buf, a, c)
  {
  }

  lemma WriteOwned(g: Config, w: Worker, own: map<nat, Owner>, c: nat, result: int, token: nat)
    returns (own': map<nat, Owner>)
    requires Owned(g, w, own) && c in w.conns && c in w.traffic && w.conns[c].phase.Writing? && result > 0
    ensures Owned(g, HandleWrite(w, c, w.conns[c].phase.bufIdx, result, token), own')
  {
    var b := w.conns[c].phase.bufIdx;
    var w' := HandleWrite(w, c, b, result, token);
    if w.conns[c].phase.written + result >= w.conns[c].phase.total {
      own' := own[b := Free];
      FreedKeeps(g, w.free, b);
      forall i | i in own' && own'[i] == Free
        ensures i in w'.free
      {
        assert i != b ==> i in w.free;
      }
    } else {
      own' := own;
      OwnedSame(g, w, w', own);
    }
  }

  lemma OutBuf(g: Config, w: Worker, own: map<nat, Owner>, c: nat)
    requires Owned(g, w, own) && c in w.conns && w.conns[c].phase.Writing?
    ensures var b := w.conns[c].phase.bufIdx;
            b in own && own[b] == Out(c) && b < |w.bufs| && |BufAt(w, b)| == g.bufferSize && b !in w.free
  {
  }

  lemma WriteKeeps(g: Config, w: Worker, own: map<nat, Owner>, c: nat, result: int, token: nat)
    returns (own': map<nat, Owner>)
    requires Owned(g, w, own) && Flows(g, w) && c in w.conns && w.conns[c].phase.Writing?
    requires 0 < result <= w.conns[c].phase.total - w.conns[c].phase.written
    ensures var w' := HandleWrite(w, c, w.conns[c].phase.bufIdx, result, token);
            Owned(g, w', own') && Flows(g, w') && Undisturbed(w, w', Some(c))
  {
    hide Owned, Flows, Undisturbed, Slice, BufAt, Flow;
    FlowOf(g, w, c);
    own' := WriteOwned(g, w, own, c, result, token);
    OutBuf(g, w, own, c);
    var w' := HandleWrite(w, c, w.conns[c].phase.bufIdx, result, token);
    OnlyConn(w, w', c);
    WriteFlow(g, w, c, result, token);
    FlowsAfter(g, w, w', c);
  }

  lemma WriteFlow(g: Config, w: Worker, c: nat, result: int, token: nat)
    requires c in w.conns && c in w.traffic && w.conns[c].phase.Writing? && Flow(g, w, c)
    requires 0 < result <= w.conns[c].phase.total - w.conns[c].phase.written
    requires |BufAt(w, w.conns[c].phase.bufIdx)| == g.bufferSize
    ensures var w' := HandleWrite(w, c, w.conns[c].phase.bufIdx, result, token);
            c in w'.conns && c in w'.traffic && Flow(g, w', c)
  {
    hide Slice;
    var t := w.traffic[c];
    var Writing(b, written, total) := w.conns[c].phase;
    SliceSplit(BufAt(w, b), written, written + result, total);
    SliceEmpty(BufAt(w, b), total);
    assert t.responses
           == t.sent + Slice(BufAt(w, b), written, written + result) + Slice(BufAt(w, b), written + result, total);
  }

  lemma SliceEmpty(buf: Bytes, i: nat)
    ensures Slice(buf, i, i) == []
  {
  }

  lemma AcceptFlows(g: Config, w: Worker, own: map<nat, Owner>, result: int, keys: SlabKeys)
    requires Owned(g, w, own) && Flows(g, w) && keys.connId !in w.conns
    ensures var w' := HandleAccept(g, w, result, keys);
            Owned(g, w', own) && Flows(g, w') && Undisturbed(w, w', None)
  {
    var w' := HandleAccept(g, w, result, keys);
    if result < 0 || |w.conns| >= g.maxConnections {
      SubmitKeeps(g, w, own, keys.token, Accept);
    } else {
      hide Owned, Flows, Undisturbed;
      NewConnOwned(g, w, own, w', keys.connId);
      NewConnFlows(g, w, w', keys.connId);
    }
  }

  lemma NewConnOwned(g: Config, w: Worker, own: map<nat, Owner>, w': Worker, c: nat)
    requires Owned(g, w, own) && c !in w.conns
    requires w'.bufs == w.bufs && w'.free == w.free && w'.conns == w.conns[c := NEW_CONN]
    ensures Owned(g, w', own)
  {
  }

  lemma NewConnFlow(g: Config, w: Worker, c: nat)
    requires c in w.conns && c in w.traffic && w.conns[c] == NEW_CONN && w.traffic[c] == NO_TRAFFIC
    ensures Flow(g, w, c)
  {
    assert Held(w, NEW_CONN) == [] && Unsent(w, NEW_CONN) == [];
  }

  lemma NewConnFlows(g: Config, w: Worker, w': Worker, c: nat)
    requires Flows(g, w) && c !in w.conns
    requires w'.bufs == w.bufs && w'.conns == w.conns[c := NEW_CONN] && w'.traffic == w.traffic[c := NO_TRAFFIC]
    ensures Flows(g, w') && Undisturbed(w, w', None)
  {
    hide Flow;
    assert c !in w.traffic.Keys;
    NewConnFlow(g, w', c);
    forall d | d in w'.conns && d in w'.traffic
      ensures Flow(g, w', d)
    {
      if d != c {
        FlowTransfer(g, w, w', d);
      }
    }
  }

  // ---------------------------------------------------------------- the provided-buffer ring

  lemma SelectKeepsRing(g: Config, w: Worker)
    requires RingInv(g, w)
    ensures RingInv(g, Step(g, w, Select))
  {
    if w.inRing != [] {
      var w' := Step(g, w, Select);
      forall k | 0 <= k < |w'.inRing|
        ensures w'.inRing[k] < g.ringEntries && w'.inRing[k] !in w'.held
      {
        assert w'.inRing[k] == w.inRing[k + 1] && w.inRing[0] != w.inRing[k + 1];
      }
    }
  }

  lemma RecycleKeepsRing(g: Config, w: Worker, bid: nat)
    requires RingInv(g, w) && bid in w.held
    ensures RingInv(g, Recycle(w, bid))
  {
    var w' := Recycle(w, bid);
    forall k | 0 <= k < |w'.inRing|
      ensures w'.inRing[k] < g.ringEntries && w'.inRing[k] !in w'.held
    {
      assert k < |w.inRing| ==> w'.inRing[k] == w.inRing[k];
    }
  }

  /** Every path of handle_read that was given a provided buffer recycles it exactly once. */
  lemma ReadRecyclesOnce(g: Config, w: Worker, c: nat, e: Event)
    requires e.Complete?
    ensures var w' := HandleRead(g, w, c, e);
            && w'.inRing == (if e.bid.Some? then w.inRing + [e.bid.value] else w.inRing)
            && w'.held == (if e.bid.Some? then w.held - {e.bid.value} else w.held)
  {
    var w0 := if e.bid.Some? then Recycle(w, e.bid.value) else w;
    if e.result > 0 && e.bid.Some? && c in w.conns && c in w.traffic {
      var w1 := Accumulator(w0, c);
      if w1.conns[c].readBuf.Some? && w1.conns[c].accumulated + |e.payload| <= g.bufferSize {
        RespondRing(g, CopyIn(w1, c, e.payload), c, e.outcome, e.out, e.keys.token);
      }
    }
  }

  lemma RespondRing(g: Config, w: Worker, c: nat, outcome: Outcome, out: Bytes, token: nat)
    requires c in w.conns && w.conns[c].readBuf.Some? && c in w.traffic
    ensures var w' := Respond(g, w, c, outcome, out, token); w'.inRing == w.inRing && w'.held == w.held
  {
    hide Consume, StartWriting, Close, Overwrite, Held, BufAt, Slice;
    var input := Held(w, w.conns[c]);
    var i: nat := if w.free == [] then 0 else w.free[|w.free| - 1];
    var w1 := SetBuf(w, i, out).(free := if w.free == [] then [] else w.free[..|w.free| - 1]);
    CloseRing(w, c);
    CloseRing(FreeBuf(w1, i), c);
    if outcome.Response? || outcome.LargeResponse? {
      ConsumeKeeps(w1, c, outcome.consumed, input);
      var w2 := Consume(w1, c, outcome.consumed, input);
      ConsumeRing(w1, c, outcome.consumed, input);
      CloseRing(FreeBuf(w2, i), c);
      if outcome.Response? {
        StartWritingRing(w2, c, i, outcome.len, Slice(out, 0, outcome.len), token);
      } else {
        var w3 := SetBuf(w2, i, Overwrite(BufAt(w2, i), 0, outcome.data));
        StartWritingRing(w3, c, i, |outcome.data|, outcome.data, token);
      }
    }
  }

  lemma CloseRing(w: Worker, c: nat)
    ensures Close(w, c).inRing == w.inRing && Close(w, c).held == w.held
  {
  }

  lemma ConsumeRing(w: Worker, c: nat, consumed: nat, input: Bytes)
    requires c in w.conns && w.conns[c].readBuf.Some? && c in w.traffic
    ensures var w' := Consume(w, c, consumed, input); w'.inRing == w.inRing && w'.held == w.held
  {
  }

  lemma StartWritingRing(w: Worker, c: nat, i: nat, len: nat, response: Bytes, token: nat)
    requires c in w.conns && c in w.traffic
    ensures var w' := StartWriting(w, c, i, len, response, token); w'.inRing == w.inRing && w'.held == w.held
  {
  }

  lemma StepKeepsRing(g: Config, w: Worker, e: Event)
    requires RingInv(g, w) && Legal(g, w, e)
    ensures RingInv(g, Step(g, w, e))
  {
    hide RingInv, HandleAccept, HandleWrite;
    if e.Select? {
      SelectKeepsRing(g, w);
    } else if e.token in w.tokens && w.tokens[e.token].Read? {
      hide HandleRead;
      var w1 := w.(inflight := w.inflight - {e.token}, tokens := w.tokens - {e.token});
      ReadRecyclesOnce(g, w1, w.tokens[e.token].connId, e);
      SameRing(g, if e.bid.Some? then Recycle(w, e.bid.value) else w, Step(g, w, e));
      if e.bid.Some? {
        RecycleKeepsRing(g, w, e.bid.value);
      }
    } else {
      NoRecycling(g, w, e);
      SameRing(g, w, Step(g, w, e));
    }
  }

  lemma SameRing(g: Config, w: Worker, w': Worker)
    requires w'.inRing == w.inRing && w'.held == w.held
    ensures RingInv(g, w) <==> RingInv(g, w')
  {
  }

  /** Accept and write completions do not touch the ring. */
  lemma NoRecycling(g: Config, w: Worker, e: Event)
    requires e.Complete? && (e.token in w.tokens ==> !w.tokens[e.token].Read?)
    ensures Step(g, w, e).inRing == w.inRing && Step(g, w, e).held == w.held
  {
    hide HandleAccept, HandleWrite;
    if e.token in w.tokens {
      var w1 := w.(inflight := w.inflight - {e.token}, tokens := w.tokens - {e.token});
      match w.tokens[e.token]
      case Accept => AcceptRing(g, w1, e.result, e.keys);
      case Write(c, i) => WriteRing(w1, c, i, e.result, e.keys.token);
    }
  }

  lemma AcceptRing(g: Config, w: Worker, result: int, keys: SlabKeys)
    ensures var w' := HandleAccept(g, w, result, keys); w'.inRing == w.inRing && w'.held == w.held
  {
  }

  lemma WriteRing(w: Worker, c: nat, i: nat, result: int, token: nat)
    ensures var w' := HandleWrite(w, c, i, result, token); w'.inRing == w.inRing && w'.held == w.held
  {
    hide Close, Slice, BufAt;
    CloseRing(FreeBuf(w, i), c);
  }

  // ---------------------------------------------------------------- whole steps and runs

  /** The connection a completion is about. */
  function Subject(w: Worker, e: Event): Option<nat> {
    if e.Complete? && e.token in w.tokens then OwnerOf(w.tokens[e.token]) else None
  }

  lemma StepOwnedFlows(g: Config, w: Worker, own: map<nat, Owner>, e: Event) returns (own': map<nat, Owner>)
    requires Owned(g, w, own) && Flows(g, w) && TokenInv(w) && Legal(g, w, e) && !FailedWrite(w, e)
    ensures Owned(g, Step(g, w, e), own') && Flows(g, Step(g, w, e)) && Undisturbed(w, Step(g, w, e), Subject(w, e))
  {
    hide Owned, Flows, Undisturbed, TokenInv, HandleAccept, HandleRead, HandleWrite;
    var w' := Step(g, w, e);
    if e.Select? {
      RecycleSame(g, w, own, w');
      own' := own;
    } else {
      CompletionFindsItsConnection(g, w, e);
      var w1 := w.(inflight := w.inflight - {e.token}, tokens := w.tokens - {e.token});
      RecycleSame(g, w, own, w1);
      match w.tokens[e.token]
      case Accept =>
        AcceptFlows(g, w1, own, e.result, e.keys);
        own' := own;
        UndisturbedTrans(w, w1, w', None);
      case Read(c) =>
        own' := ReadKeeps(g, w1, own, c, e);
        NarrowTo(w, w1, c);
        UndisturbedTrans(w, w1, w', Some(c));
      case Write(c, i) =>
        own' := WriteKeeps(g, w1, own, c, e.result, e.keys.token);
        NarrowTo(w, w1, c);
        UndisturbedTrans(w, w1, w', Some(c));
    }
  }

  lemma StepKeepsBuffers(g: Config, w: Worker, e: Event)
    requires BufferInv(g, w) && TokenInv(w) && Legal(g, w, e) && !FailedWrite(w, e)
    ensures BufferInv(g, Step(g, w, e))
  {
    var own :| Owned(g, w, own);
    hide Owned, Flows, RingInv, Undisturbed, Step, TokenInv;
    var own' := StepOwnedFlows(g, w, own, e);
    StepKeepsRing(g, w, e);
  }

  /** A failed or zero-length write frees its buffer twice: afterwards the free list holds the index twice. */
  lemma FailedWriteFreesTwice(g: Config, w: Worker, e: Event)
    requires TokenInv(w) && Legal(g, w, e) && FailedWrite(w, e)
    ensures !Distinct(Step(g, w, e).free)
    ensures !BufferInv(g, Step(g, w, e))
  {
    CompletionFindsItsConnection(g, w, e);
    hide TokenInv;
    var w' := Step(g, w, e);
    var n := |w.free|;
    assert w'.free[n] == w'.free[n + 1] == w.tokens[e.token].bufIdx;
    InvMeansDistinct(g, w');
  }

  lemma InvMeansDistinct(g: Config, w: Worker)
    ensures BufferInv(g, w) ==> Distinct(w.free)
  {
  }

  /** The free list after a failed write ends with the write buffer twice, then the accumulation buffer. */
  lemma FailedWriteEffect(g: Config, w: Worker, e: Event, c: nat)
    requires TokenInv(w) && Legal(g, w, e) && FailedWrite(w, e)
    requires w.tokens[e.token] == Write(c, w.tokens[e.token].bufIdx) && c in w.conns && w.conns[c].readBuf.Some?
    ensures var b := w.tokens[e.token].bufIdx;
            && Step(g, w, e).free == w.free + [b] + [b] + [w.conns[c].readBuf.value]
            && Step(g, w, e).conns == w.conns - {c}
  {
    CompletionFindsItsConnection(g, w, e);
    hide TokenInv;
  }

  /** Exclusive ownership and both flow equations survive a step if and only if it is not a failed write. */
  lemma BuffersKeptIff(g: Config, w: Worker, e: Event)
    requires BufferInv(g, w) && TokenInv(w) && Legal(g, w, e)
    ensures BufferInv(g, Step(g, w, e)) <==> !FailedWrite(w, e)
  {
    hide BufferInv, TokenInv;
    if FailedWrite(w, e) {
      FailedWriteFreesTwice(g, w, e);
    } else {
      StepKeepsBuffers(g, w, e);
    }
  }

  lemma InitialBuffers(g: Config, w: Worker)
    requires Initial(g, w)
    ensures BufferInv(g, w)
  {
    var own := map i | i in w.free :: Free;
    forall i: nat | i < g.poolSize
      ensures i in w.free
    {
      assert w.free[i] == i;
    }
    assert Owned(g, w, own);
  }

  lemma {:induction false} RunBuffers(g: Config, ws: seq<Worker>, es: seq<Event>, i: nat)
    requires Run(g, ws, es) && i < |ws|
    requires forall j :: 0 <= j < i ==> !FailedWrite(ws[j], es[j])
    ensures BufferInv(g, ws[i])
    decreases i
  {
    if i == 0 {
      InitialBuffers(g, ws[0]);
    } else {
      hide BufferInv;
      RunBuffers(g, ws, es, i - 1);
      RunTokens(g, ws, es, i - 1);
      assert !FailedWrite(ws[i - 1], es[i - 1]);
      StepKeepsBuffers(g, ws[i - 1], es[i - 1]);
    }
  }

  /** The roles a pool index plays, read off the worker itself. */
  predicate Uses(w: Worker, c: nat, i: nat) {
    c in w.conns && (w.conns[c].readBuf == Some(i) || (w.conns[c].phase.Writing? && w.conns[c].phase.bufIdx == i))
  }

  /** The free list, the accumulation buffers and the buffers being written partition the pool. */
  ghost predicate Partitioned(g: Config, w: Worker) {
    && Distinct(w.free) && (forall k :: 0 <= k < |w.free| ==> w.free[k] < g.poolSize)
    && (forall i: nat :: i < g.poolSize ==> i in w.free || exists c: nat :: Uses(w, c, i))
    && (forall i: nat, c: nat :: Uses(w, c, i) ==> i < g.poolSize && i !in w.free)
    && (forall i: nat, c: nat, d: nat :: Uses(w, c, i) && Uses(w, d, i) ==> c == d)
    && (forall c :: c in w.conns && w.conns[c].phase.Writing? ==> w.conns[c].readBuf != Some(w.conns[c].phase.bufIdx))
  }

  lemma OwnedPartitions(g: Config, w: Worker, own: map<nat, Owner>)
    requires Owned(g, w, own)
    ensures Partitioned(g, w)
  {
    forall i: nat | i < g.poolSize
      ensures i in w.free || exists c: nat :: Uses(w, c, i)
    {
      assert i in own;
      if own[i] != Free {
        assert Uses(w, own[i].conn, i);
      }
    }
  }

  /** Before the first failed write, on every run, the pool is partitioned. */
  lemma PoolPartition(g: Config, ws: seq<Worker>, es: seq<Event>, n: nat)
    requires Run(g, ws, es) && n < |ws|
    requires forall j :: 0 <= j < n ==> !FailedWrite(ws[j], es[j])
    ensures Partitioned(g, ws[n])
  {
    RunBuffers(g, ws, es, n);
    var own :| Owned(g, ws[n], own);
    OwnedPartitions(g, ws[n], own);
  }

  /** Before the first failed write no received byte is lost: what was copied in is what requests consumed
      followed by the accumulated bytes. */
  lemma InputConserved(g: Config, ws: seq<Worker>, es: seq<Event>, n: nat, c: nat)
    requires Run(g, ws, es) && n < |ws| && c in ws[n].conns
    requires forall j :: 0 <= j < n ==> !FailedWrite(ws[j], es[j])
    ensures c in ws[n].traffic
    ensures ws[n].traffic[c].received == ws[n].traffic[c].consumed + Held(ws[n], ws[n].conns[c])
  {
    RunBuffers(g, ws, es, n);
    FlowOf(g, ws[n], c);
  }

  /** Before the first failed write the bytes sent on a connection are a prefix of its responses in order,
      and all of them whenever it is reading again. */
  lemma SendIntegrity(g: Config, ws: seq<Worker>, es: seq<Event>, n: nat, c: nat)
    requires Run(g, ws, es) && n < |ws| && c in ws[n].conns
    requires forall j :: 0 <= j < n ==> !FailedWrite(ws[j], es[j])
    ensures c in ws[n].traffic && ws[n].traffic[c].sent <= ws[n].traffic[c].responses
    ensures ws[n].conns[c].phase.Reading? ==> ws[n].traffic[c].sent == ws[n].traffic[c].responses
  {
    RunBuffers(g, ws, es, n);
    FlowOf(g, ws[n], c);
  }

  /** No step alters a buffer that the kernel is writing out for another connection, nor that connection. */
  lemma InFlightBufferUntouched(g: Config, ws: seq<Worker>, es: seq<Event>, n: nat, d: nat)
    requires Run(g, ws, es) && n < |es| && d in ws[n].conns && ws[n].conns[d].phase.Writing?
    requires forall j :: 0 <= j <= n ==> !FailedWrite(ws[j], es[j])
    requires Subject(ws[n], es[n]) != Some(d)
    ensures d in ws[n + 1].conns && ws[n + 1].conns[d] == ws[n].conns[d]
    ensures BufAt(ws[n + 1], ws[n].conns[d].phase.bufIdx) == BufAt(ws[n], ws[n].conns[d].phase.bufIdx)
  {
    RunBuffers(g, ws, es, n);
    RunTokens(g, ws, es, n);
    var own :| Owned(g, ws[n], own);
    FlowOf(g, ws[n], d);
    assert !FailedWrite(ws[n], es[n]);
    hide Owned, Flows, TokenInv, Step;
    var own' := StepOwnedFlows(g, ws[n], own, es[n]);
  }

  /** On every run each provided buffer is in the ring or held by one handler. */
  lemma {:induction false} RingConserved(g: Config, ws: seq<Worker>, es: seq<Event>, n: nat)
    requires Run(g, ws, es) && n < |ws|
    ensures RingInv(g, ws[n])
    decreases n
  {
    if n == 0 {
      InitialBuffers(g, ws[0]);
    } else {
      RingConserved(g, ws, es, n - 1);
      StepKeepsRing(g, ws[n - 1], es[n - 1]);
    }
  }
}
