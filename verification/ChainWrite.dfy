/** Sending a large response of the mio worker: a chain of buffers written with `writev`, resumed at the count of
    bytes already written. */
module ChainWrite {
  import opened Base
  import opened Buffers
  import opened MioSpec

  /** The chain a response lies in: buffers `idxs` of `bufs`, `len` bytes in all. */
  datatype Chain = Chain(bufs: seq<Bytes>, idxs: seq<nat>, len: nat, size: nat)

  predicate ValidChain(ch: Chain) {
    && ch.size > 0 && SameSize(ch.bufs, ch.size) && InPool(ch.bufs, ch.idxs) && Distinct(ch.idxs)
    && Shape(|ch.idxs|, ch.len, ch.size)
  }

  function Response(ch: Chain): Bytes
    requires ValidChain(ch)
  {
    Flat(ch.bufs, ch.idxs, ch.len, ch.size)
  }

  /** What `io_slices` offers the socket at offset `written`. */
  function Offered(ch: Chain, written: nat): Bytes
    requires ValidChain(ch)
  {
    if written >= ch.len then [] else Gather(ch.bufs, ch.idxs, written, ch.len - written, ch.size)
  }

  datatype Sender = Sender(written: nat, sent: Bytes)

  /** One writable event: the socket takes `n` bytes of what it is offered; nothing is written when nothing is. */
  ghost predicate Took(ch: Chain, s: Sender, n: nat, s': Sender)
    requires ValidChain(ch)
  {
    var view := Offered(ch, s.written);
    s.written < ch.len && n <= |view| && (view != [] ==> n > 0) && s' == Sender(s.written + n, s.sent + view[..n])
  }

  /** The sending of one response up to some point. */
  ghost predicate Sending(ch: Chain, ss: seq<Sender>, ns: seq<nat>)
    requires ValidChain(ch)
  {
    && |ss| == |ns| + 1 && ss[0] == Sender(0, [])
    && forall i :: 0 <= i < |ns| ==> Took(ch, ss[i], ns[i], ss[i + 1])
  }

  /** Every write so far began at a resumable offset. */
  ghost predicate ResumedWell(ch: Chain, ss: seq<Sender>, n: nat)
    requires ValidChain(ch) && n <= |ss|
  {
    forall i :: 0 <= i < n ==> Resumable(ss[i].written, ch.len, ch.size)
  }

  /** As long as every partial write ends at a resumable offset, the bytes sent are a prefix of the response,
      and all of it once the last write is through. */
  lemma {:induction false} SentIsPrefix(ch: Chain, ss: seq<Sender>, ns: seq<nat>, n: nat)
    requires ValidChain(ch) && Sending(ch, ss, ns) && n < |ss|
    requires ResumedWell(ch, ss, n)
    ensures |Response(ch)| == ch.len && ss[n].written <= ch.len
    ensures ss[n].sent == Response(ch)[..ss[n].written]
    ensures ss[n].written == ch.len ==> ss[n].sent == Response(ch)
  {
    hide Gather, Flat, Shape, Resumable;
    FlatLength(ch.bufs, ch.idxs, ch.len, ch.size);
    if n > 0 {
      SentIsPrefix(ch, ss, ns, n - 1);
      assert Took(ch, ss[n - 1], ns[n - 1], ss[n]);
      var written := ss[n - 1].written;
      GatherResumes(ch.bufs, ch.idxs, written, ch.len, ch.size);
      var all := Response(ch);
      assert all[..written] + all[written..][..ns[n - 1]] == all[..written + ns[n - 1]];
    }
  }

  /** At the first offset that is not resumable the promise ends: for some contents of the same chain, the bytes
      sent so far are right and what is offered next is not the rest of the response. */
  lemma FirstWrongOffset(ch: Chain, ss: seq<Sender>, ns: seq<nat>) returns (ch': Chain, ss': seq<Sender>)
    requires ValidChain(ch) && Sending(ch, ss, ns) && ResumedWell(ch, ss, |ns|)
    requires ss[|ns|].written < ch.len && !Resumable(ss[|ns|].written, ch.len, ch.size)
    ensures ch' == ch.(bufs := ch'.bufs) && |ch'.bufs| == |ch.bufs| && ValidChain(ch')
    ensures Sending(ch', ss', ns) && ss'[|ns|].written == ss[|ns|].written
    ensures |Response(ch')| == ch.len && ss'[|ns|].sent == Response(ch')[..ss[|ns|].written]
    ensures Offered(ch', ss[|ns|].written) != Response(ch')[ss[|ns|].written..]
  {
    hide Gather, Flat, Shape, Resumable;
    var bufs := GatherFails(|ch.bufs|, ch.idxs, ss[|ns|].written, ch.len, ch.size);
    ch' := ch.(bufs := bufs);
    ss' := SameAmounts(ch, ch', ss, ns);
    SentIsPrefix(ch', ss', ns, |ns|);
  }

  /** How much is offered depends on the offset and the chain's shape, not on the contents. */
  lemma {:induction false} GatherLength(bufs: seq<Bytes>, bufs': seq<Bytes>, idxs: seq<nat>, skip: nat,
                                        remaining: nat, size: nat)
    requires SameSize(bufs, size) && SameSize(bufs', size) && InPool(bufs, idxs) && InPool(bufs', idxs)
    ensures |Gather(bufs, idxs, skip, remaining, size)| == |Gather(bufs', idxs, skip, remaining, size)|
    decreases |idxs|
  {
    if idxs != [] {
      var chunk := Min(remaining, size);
      if skip >= chunk {
        GatherLength(bufs, bufs', idxs[1..], skip - chunk, remaining, size);
      } else {
        GatherLength(bufs, bufs', idxs[1..], 0, remaining - chunk, size);
      }
    }
  }

  /** So the same amounts can be taken from another contents. */
  lemma {:induction false} SameAmounts(ch: Chain, ch': Chain, ss: seq<Sender>, ns: seq<nat>) returns (ss': seq<Sender>)
    requires ValidChain(ch) && ValidChain(ch') && ch' == ch.(bufs := ch'.bufs) && Sending(ch, ss, ns)
    ensures Sending(ch', ss', ns)
    ensures forall i :: 0 <= i < |ss| ==> ss'[i].written == ss[i].written
    decreases |ns|
  {
    hide Gather, Flat, Shape;
    if ns == [] {
      ss' := [Sender(0, [])];
    } else {
      var k := |ns| - 1;
      assert Took(ch, ss[k], ns[k], ss[k + 1]);
      var before := SameAmounts(ch, ch', ss[..k + 1], ns[..k]);
      assert before[k].written == ss[..k + 1][k].written;
      GatherLength(ch.bufs, ch'.bufs, ch.idxs, ss[k].written, ch.len - ss[k].written, ch.size);
      var view := Offered(ch', before[k].written);
      var next := Sender(before[k].written + ns[k], before[k].sent + view[..ns[k]]);
      SendMore(ch', before, ns[..k], ns[k], next);
      ss' := before + [next];
      assert ns[..k] + [ns[k]] == ns;
      hide Took, Sending;
      forall i | 0 <= i < |ss|
        ensures ss'[i].written == ss[i].written
      {
        assert i <= k ==> before[i].written == ss[..k + 1][i].written;
      }
    }
  }

  lemma SendMore(ch: Chain, ss: seq<Sender>, ns: seq<nat>, n: nat, next: Sender)
    requires ValidChain(ch) && Sending(ch, ss, ns) && Took(ch, ss[|ns|], n, next)
    ensures Sending(ch, ss + [next], ns + [n])
  {
    hide Took;
  }

  // ---------------------------------------------------------------- the stuck state

  /** Nothing is offered although bytes are left: exactly when less than a buffer is left and skipping that much
      per buffer uses up the chain. */
  predicate Stuck(ch: Chain, written: nat) {
    written < ch.len && ch.len - written < ch.size && written >= |ch.idxs| * (ch.len - written)
  }

  lemma {:induction false} SmallViewEmpty(bufs: seq<Bytes>, idxs: seq<nat>, skip: nat, remaining: nat, size: nat)
    requires SameSize(bufs, size) && InPool(bufs, idxs) && 0 < remaining < size
    ensures Gather(bufs, idxs, skip, remaining, size) == [] <==> skip >= |idxs| * remaining
    decreases |idxs|
  {
    if idxs != [] {
      var rest := idxs[1..];
      assert |idxs| * remaining == |rest| * remaining + remaining;
      assert |rest| * remaining >= 0;
      if skip >= remaining {
        SmallViewEmpty(bufs, rest, skip - remaining, remaining, size);
      }
    }
  }

  lemma {:induction false} FullViewOffers(bufs: seq<Bytes>, idxs: seq<nat>, start: nat, len: nat, size: nat)
    requires size > 0 && SameSize(bufs, size) && InPool(bufs, idxs) && Shape(|idxs|, len, size)
    requires start + size <= len
    ensures Gather(bufs, idxs, start, len - start, size) != []
    decreases |idxs|
  {
    if start >= size {
      FullViewOffers(bufs, idxs[1..], start - size, len - size, size);
    }
  }

  lemma StuckIff(ch: Chain, written: nat)
    requires ValidChain(ch) && written < ch.len
    ensures Offered(ch, written) == [] <==> Stuck(ch, written)
  {
    var left := ch.len - written;
    if left < ch.size {
      SmallViewEmpty(ch.bufs, ch.idxs, written, left, ch.size);
    } else {
      FullViewOffers(ch.bufs, ch.idxs, written, ch.len, ch.size);
    }
  }

  /** A stuck sender never moves again, and no other sender stands still. */
  lemma StuckForever(ch: Chain, s: Sender, n: nat, s': Sender)
    requires ValidChain(ch) && Took(ch, s, n, s')
    ensures s' == s <==> Stuck(ch, s.written)
  {
    hide Gather, Shape, Stuck;
    StuckIff(ch, s.written);
    assert s.sent + [] == s.sent;
  }

  /** In the worker: a connection whose response is stuck keeps its state and its buffers at every writable event. */
  lemma StuckConnection(w: Worker, c: nat, ch: Chain, n: nat, ok: bool)
    requires ValidChain(ch) && c in w.conns && w.conns[c].writeChain == Some(ch.idxs)
    requires var state := w.conns[c].state; state.Writing? && state.total == ch.len && Stuck(ch, state.written)
    requires n <= |Offered(ch, w.conns[c].state.written)|
    ensures HandleWritable(w, Writable(c, Wrote(n), ok)) == w
  {
    var written := w.conns[c].state.written;
    StuckIff(ch, written);
    assert w.conns[c := w.conns[c].(state := w.conns[c].state)] == w.conns;
  }

  /** Six bytes in two buffers of four: when the socket takes the first four, the last two are never offered. */
  lemma StuckExample(b: seq<Bytes>)
    requires |b| == 2 && |b[0]| == |b[1]| == 4
    ensures var ch := Chain(b, [0, 1], 6, 4);
            && ValidChain(ch) && Sending(ch, [Sender(0, []), Sender(4, b[0])], [4])
            && Stuck(ch, 4) && Offered(ch, 4) == []
  {
    var ch := Chain(b, [0, 1], 6, 4);
    assert Shape(1, 2, 4) && Shape(2, 6, 4);
    assert ValidChain(ch);
    StuckIff(ch, 4);
    var rest := [0, 1][1..];
    assert rest == [1];
    assert Offered(ch, 0) == b[0][0..4] + Gather(b, rest, 0, 2, 4);
    assert Offered(ch, 0)[..4] == b[0];
    assert Took(ch, Sender(0, []), 4, Sender(4, b[0])) by {
      assert [] + b[0] == b[0];
    }
  }
}
