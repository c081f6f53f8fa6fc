/** One operation in flight per connection, on every run. */
module UringTokens {
  import opened Base
  import opened UringSpec

  function OwnerOf(op: OpType): Option<nat> {
    match op
    case Accept => None
    case Read(c) => Some(c)
    case Write(c, _) => Some(c)
  }

  /** `tk` names the outstanding operation of each connection, `at` that of the listener. */
  ghost predicate Matched(w: Worker, tk: map<nat, nat>, at: nat) {
    && w.inflight == w.tokens.Keys
    && w.traffic.Keys == w.conns.Keys
    && at in w.tokens && w.tokens[at] == Accept
    && tk.Keys == w.conns.Keys
    && (forall c :: c in w.conns ==> tk[c] in w.tokens && w.tokens[tk[c]] == Expected(c, w.conns[c]))
    && (forall t :: t in w.tokens ==>
          match OwnerOf(w.tokens[t])
          case None => t == at
          case Some(c) => c in w.conns && tk[c] == t)
  }

  ghost predicate TokenInv(w: Worker) {
    exists tk, at :: Matched(w, tk, at)
  }

  // ---------------------------------------------------------------- the shapes a completion may leave

  /** The connection is gone and nothing was submitted for it. */
  ghost predicate Ended(w: Worker, w': Worker, c: nat) {
    && w'.tokens == w.tokens && w'.inflight == w.inflight
    && w'.conns == w.conns - {c} && w'.traffic.Keys == w.traffic.Keys - {c}
  }

  /** The connection is there and exactly the operation its phase waits for was submitted. */
  ghost predicate Resubmitted(w: Worker, w': Worker, c: nat, token: nat) {
    && c in w.conns && c in w'.conns && w'.conns == w.conns[c := w'.conns[c]]
    && w'.traffic.Keys == w.traffic.Keys
    && w'.tokens == w.tokens[token := Expected(c, w'.conns[c])] && w'.inflight == w.inflight + {token}
  }

  lemma CloseEnds(w: Worker, c: nat)
    requires c in w.conns && c in w.traffic
    ensures Ended(w, Close(w, c), c)
  {
  }

  lemma ConsumeKeeps(w: Worker, c: nat, consumed: nat, input: Bytes)
    requires c in w.conns && w.conns[c].readBuf.Some? && c in w.traffic
    ensures var w' := Consume(w, c, consumed, input);
            && w'.tokens == w.tokens && w'.inflight == w.inflight && w'.traffic.Keys == w.traffic.Keys
            && c in w'.conns && w'.conns == w.conns[c := w'.conns[c]]
            && w'.conns[c].phase == w.conns[c].phase && w'.conns[c].readBuf == w.conns[c].readBuf
            && w'.free == w.free
  {
  }

  lemma WritingResubmits(w: Worker, w0: Worker, c: nat, i: nat, len: nat, response: Bytes, token: nat)
    requires c in w.conns && c in w.traffic && c in w0.conns
    requires w.tokens == w0.tokens && w.inflight == w0.inflight && w.traffic.Keys == w0.traffic.Keys
    requires w.conns == w0.conns[c := w.conns[c]]
    ensures Resubmitted(w0, StartWriting(w, c, i, len, response, token), c, token)
  {
  }

  lemma RespondShape(g: Config, w: Worker, c: nat, outcome: Outcome, out: Bytes, token: nat)
    requires c in w.conns && w.conns[c].readBuf.Some? && c in w.traffic && w.conns[c].phase.Reading?
    ensures var w' := Respond(g, w, c, outcome, out, token);
            Ended(w, w', c) || Resubmitted(w, w', c, token)
  {
    var w', input := Respond(g, w, c, outcome, out, token), Held(w, w.conns[c]);
    if w.free == [] {
      CloseEnds(w, c);
    } else {
      var i := w.free[|w.free| - 1];
      var w1 := SetBuf(w, i, out).(free := w.free[..|w.free| - 1]);
      match outcome
      case NeedData =>
        assert w.conns == w.conns[c := w.conns[c]];
        assert Resubmitted(w, w', c, token);
      case Response(consumed, len) =>
        ConsumeKeeps(w1, c, consumed, input);
        WritingResubmits(Consume(w1, c, consumed, input), w, c, i, len, Slice(out, 0, len), token);
      case LargeResponse(consumed, data) =>
        ConsumeKeeps(w1, c, consumed, input);
        var w2 := Consume(w1, c, consumed, input);
        if |data| <= g.bufferSize {
          WritingResubmits(SetBuf(w2, i, Overwrite(BufAt(w2, i), 0, data)), w, c, i, |data|, data, token);
        } else {
          CloseEnds(FreeBuf(w2, i), c);
          assert w2.conns - {c} == w.conns - {c};
        }
      case _ => CloseEnds(FreeBuf(w1, i), c);
    }
  }

  lemma ReadShape(g: Config, w: Worker, c: nat, e: Event)
    requires e.Complete? && c in w.conns && c in w.traffic && w.conns[c].phase.Reading?
    ensures var w' := HandleRead(g, w, c, e);
            Ended(w, w', c) || Resubmitted(w, w', c, e.keys.token)
  {
    hide Respond, Close;
    var w0 := if e.bid.Some? then Recycle(w, e.bid.value) else w;
    CloseEnds(w0, c);
    if e.result > 0 && e.bid.Some? {
      var w1 := Accumulator(w0, c);
      CloseEnds(w1, c);
      assert w1.conns - {c} == w.conns - {c};
      if w1.conns[c].readBuf.Some? && w1.conns[c].accumulated + |e.payload| <= g.bufferSize {
        var w2 := CopyIn(w1, c, e.payload);
        RespondShape(g, w2, c, e.outcome, e.out, e.keys.token);
        ShapeThrough(w, w2, HandleRead(g, w, c, e), c, e.keys.token);
      }
    }
  }

  /** Changing the connection itself first makes no difference to the shape. */
  lemma ShapeThrough(w: Worker, w1: Worker, w': Worker, c: nat, token: nat)
    requires c in w.conns && c in w1.conns && w1.conns == w.conns[c := w1.conns[c]]
    requires w1.tokens == w.tokens && w1.inflight == w.inflight && w1.traffic.Keys == w.traffic.Keys
    requires Ended(w1, w', c) || Resubmitted(w1, w', c, token)
    ensures Ended(w, w', c) || Resubmitted(w, w', c, token)
  {
    assert w1.conns - {c} == w.conns - {c};
  }

  lemma WriteShape(w: Worker, c: nat, i: nat, result: int, token: nat)
    requires c in w.conns && c in w.traffic && w.conns[c].phase.Writing?
    ensures var w' := HandleWrite(w, c, i, result, token);
            Ended(w, w', c) || Resubmitted(w, w', c, token)
  {
    CloseEnds(FreeBuf(w, i), c);
  }

  // ---------------------------------------------------------------- the invariant is kept

  lemma EndedKeeps(w: Worker, tk: map<nat, nat>, at: nat, w1: Worker, w': Worker, c: nat)
    requires Matched(w, tk, at) && c in w.conns
    requires w1.tokens == w.tokens - {tk[c]} && w1.inflight == w.inflight - {tk[c]}
    requires w1.conns == w.conns && w1.traffic == w.traffic
    requires Ended(w1, w', c)
    ensures Matched(w', tk - {c}, at)
  {
  }

  lemma ResubmittedKeeps(w: Worker, tk: map<nat, nat>, at: nat, w1: Worker, w': Worker, c: nat, token: nat)
    requires Matched(w, tk, at) && c in w.conns
    requires w1.tokens == w.tokens - {tk[c]} && w1.inflight == w.inflight - {tk[c]}
    requires w1.conns == w.conns && w1.traffic == w.traffic
    requires Resubmitted(w1, w', c, token) && token !in w1.tokens
    ensures Matched(w', tk[c := token], at)
  {
    hide Matched, Expected, OwnerOf;
    ResubmittedForward(w, tk, at, w1, w', c, token);
    ResubmittedBack(w, tk, at, w1, w', c, token);
    ResubmittedSets(w, tk, at, w1, w', c, token);
    IsMatched(w', tk[c := token], at);
  }

  lemma ResubmittedSets(w: Worker, tk: map<nat, nat>, at: nat, w1: Worker, w': Worker, c: nat, token: nat)
    requires Matched(w, tk, at) && c in w.conns
    requires w1.tokens == w.tokens - {tk[c]} && w1.inflight == w.inflight - {tk[c]}
    requires w1.conns == w.conns && w1.traffic == w.traffic
    requires Resubmitted(w1, w', c, token) && token !in w1.tokens
    ensures w'.inflight == w'.tokens.Keys && w'.traffic.Keys == w'.conns.Keys == tk[c := token].Keys
    ensures at in w'.tokens && w'.tokens[at] == Accept
  {
    hide Expected;
    ListenerToken(w, tk, at, c);
  }

  lemma IsMatched(w: Worker, tk: map<nat, nat>, at: nat)
    requires w.inflight == w.tokens.Keys && w.traffic.Keys == w.conns.Keys == tk.Keys
    requires at in w.tokens && w.tokens[at] == Accept
    requires forall c :: c in w.conns ==> tk[c] in w.tokens && w.tokens[tk[c]] == Expected(c, w.conns[c])
    requires forall t :: t in w.tokens ==>
               match OwnerOf(w.tokens[t])
               case None => t == at
               case Some(c) => c in w.conns && tk[c] == t
    ensures Matched(w, tk, at)
  {
  }

  lemma ResubmittedForward(w: Worker, tk: map<nat, nat>, at: nat, w1: Worker, w': Worker, c: nat, token: nat)
    requires Matched(w, tk, at) && c in w.conns
    requires w1.tokens == w.tokens - {tk[c]} && w1.conns == w.conns
    requires Resubmitted(w1, w', c, token) && token !in w1.tokens
    ensures forall d :: d in w'.conns ==>
              tk[c := token][d] in w'.tokens && w'.tokens[tk[c := token][d]] == Expected(d, w'.conns[d])
  {
    forall d | d in w'.conns
      ensures tk[c := token][d] in w'.tokens && w'.tokens[tk[c := token][d]] == Expected(d, w'.conns[d])
    {
      if d != c {
        DifferentTokens(w, tk, at, c, d);
      }
    }
  }

  lemma ResubmittedBack(w: Worker, tk: map<nat, nat>, at: nat, w1: Worker, w': Worker, c: nat, token: nat)
    requires Matched(w, tk, at) && c in w.conns
    requires w1.tokens == w.tokens - {tk[c]} && w1.conns == w.conns
    requires Resubmitted(w1, w', c, token) && token !in w1.tokens
    ensures forall t :: t in w'.tokens ==>
              match OwnerOf(w'.tokens[t])
              case None => t == at
              case Some(d) => d in w'.conns && tk[c := token][d] == t
  {
    OwnerOfExpected(c, w'.conns[c]);
    hide Expected;
    forall t | t in w'.tokens
      ensures match OwnerOf(w'.tokens[t])
              case None => t == at
              case Some(d) => d in w'.conns && tk[c := token][d] == t
    {
      if t != token {
        TokenIsOwners(w, tk, at, t);
        assert t != tk[c];
      }
    }
  }

  lemma OwnerOfExpected(c: nat, conn: Conn)
    ensures OwnerOf(Expected(c, conn)) == Some(c)
  {
  }

  lemma DifferentTokens(w: Worker, tk: map<nat, nat>, at: nat, c: nat, d: nat)
    requires Matched(w, tk, at) && c in w.conns && d in w.conns && c != d
    ensures tk[c] != tk[d] && tk[c] != at && tk[c] in w.tokens && tk[d] in w.tokens
  {
    assert OwnerOf(w.tokens[tk[c]]) == Some(c) && OwnerOf(w.tokens[tk[d]]) == Some(d);
  }

  lemma ListenerToken(w: Worker, tk: map<nat, nat>, at: nat, c: nat)
    requires Matched(w, tk, at) && c in w.conns
    ensures tk[c] != at && tk[c] in w.tokens && w.tokens[tk[c]] == Expected(c, w.conns[c])
  {
    assert OwnerOf(w.tokens[tk[c]]) == Some(c);
  }

  /** Re-arming the accept. */
  lemma RearmKeeps(w: Worker, tk: map<nat, nat>, at: nat, w1: Worker, token: nat)
    requires Matched(w, tk, at)
    requires w1.tokens == w.tokens - {at} && w1.inflight == w.inflight - {at}
    requires w1.conns == w.conns && w1.traffic == w.traffic && token !in w1.tokens
    ensures Matched(Submit(w1, token, Accept), tk, token)
  {
    var w' := Submit(w1, token, Accept);
    forall c | c in w'.conns
      ensures tk[c] in w'.tokens && w'.tokens[tk[c]] == Expected(c, w'.conns[c])
    {
      ListenerToken(w, tk, at, c);
    }
    forall t | t in w'.tokens
      ensures match OwnerOf(w'.tokens[t])
              case None => t == token
              case Some(c) => c in w'.conns && tk[c] == t
    {
      assert t != token ==> t in w.tokens && t != at;
    }
  }

  /** A new connection with its first read. */
  lemma NewConnKeeps(w: Worker, tk: map<nat, nat>, at: nat, c: nat, token: nat)
    requires Matched(w, tk, at) && c !in w.conns && token !in w.tokens
    ensures Matched(Submit(w.(conns := w.conns[c := NEW_CONN], traffic := w.traffic[c := NO_TRAFFIC]), token, Read(c)),
                    tk[c := token], at)
  {
    var w' := Submit(w.(conns := w.conns[c := NEW_CONN], traffic := w.traffic[c := NO_TRAFFIC]), token, Read(c));
    var tk' := tk[c := token];
    forall d | d in w'.conns
      ensures tk'[d] in w'.tokens && w'.tokens[tk'[d]] == Expected(d, w'.conns[d])
    {
      if d != c {
        ListenerToken(w, tk, at, d);
      }
    }
    forall t | t in w'.tokens
      ensures match OwnerOf(w'.tokens[t])
              case None => t == at
              case Some(d) => d in w'.conns && tk'[d] == t
    {
      if t != token {
        assert t in w.tokens;
      }
    }
  }

  lemma AcceptKeeps(g: Config, w: Worker, tk: map<nat, nat>, at: nat, w1: Worker, result: int, keys: SlabKeys)
    returns (tk': map<nat, nat>)
    requires Matched(w, tk, at)
    requires w1.tokens == w.tokens - {at} && w1.inflight == w.inflight - {at}
    requires w1.conns == w.conns && w1.traffic == w.traffic
    requires keys.token !in w1.tokens && keys.readToken !in w1.tokens && keys.readToken != keys.token
    requires keys.connId !in w.conns
    ensures Matched(HandleAccept(g, w1, result, keys), tk', keys.token)
  {
    hide Matched, HandleAccept;
    RearmKeeps(w, tk, at, w1, keys.token);
    tk' := AcceptedKeeps(g, w1, tk, result, keys);
  }

  lemma AcceptedKeeps(g: Config, w: Worker, tk: map<nat, nat>, result: int, keys: SlabKeys)
    returns (tk': map<nat, nat>)
    requires Matched(Submit(w, keys.token, Accept), tk, keys.token)
    requires keys.readToken !in w.tokens && keys.readToken != keys.token && keys.connId !in w.conns
    ensures Matched(HandleAccept(g, w, result, keys), tk', keys.token)
  {
    hide Matched;
    if result < 0 || |w.conns| >= g.maxConnections {
      tk' := tk;
    } else {
      NewConnKeeps(Submit(w, keys.token, Accept), tk, keys.token, keys.connId, keys.readToken);
      tk' := tk[keys.connId := keys.readToken];
    }
  }

  /** The kernel only completes known tokens, and a completion always finds its connection, in the phase
      the operation was submitted in: the unknown-token and missing-connection branches are never taken. */
  lemma CompletionFindsItsConnection(g: Config, w: Worker, e: Event)
    requires TokenInv(w) && Legal(g, w, e) && e.Complete?
    ensures e.token in w.tokens
    ensures match w.tokens[e.token]
            case Accept => true
            case Read(c) => c in w.conns && c in w.traffic && w.conns[c].phase.Reading?
            case Write(c, i) =>
              c in w.conns && c in w.traffic && w.conns[c].phase.Writing? && w.conns[c].phase.bufIdx == i
  {
    var tk, at :| Matched(w, tk, at);
    assert OwnerOf(w.tokens[e.token]).Some? ==> OwnerOf(w.tokens[e.token]).value in w.traffic.Keys;
  }

  lemma StepKeepsTokens(g: Config, w: Worker, e: Event)
    requires TokenInv(w) && Legal(g, w, e)
    ensures TokenInv(Step(g, w, e))
  {
    var tk, at :| Matched(w, tk, at);
    var w' := Step(g, w, e);
    if e.Select? {
      assert Matched(w', tk, at);
    } else {
      hide Matched, HandleAccept, HandleRead, HandleWrite;
      CompletionFindsItsConnection(g, w, e);
      var w1 := w.(inflight := w.inflight - {e.token}, tokens := w.tokens - {e.token});
      TokenIsOwners(w, tk, at, e.token);
      match w.tokens[e.token]
      case Accept =>
        var tk' := AcceptKeeps(g, w, tk, at, w1, e.result, e.keys);
      case Read(c) =>
        ReadShape(g, w1, c, e);
        if Ended(w1, w', c) {
          EndedKeeps(w, tk, at, w1, w', c);
        } else {
          ResubmittedKeeps(w, tk, at, w1, w', c, e.keys.token);
        }
      case Write(c, i) =>
        WriteShape(w1, c, i, e.result, e.keys.token);
        if Ended(w1, w', c) {
          EndedKeeps(w, tk, at, w1, w', c);
        } else {
          ResubmittedKeeps(w, tk, at, w1, w', c, e.keys.token);
        }
    }
  }

  lemma TokenIsOwners(w: Worker, tk: map<nat, nat>, at: nat, t: nat)
    requires Matched(w, tk, at) && t in w.tokens
    ensures match OwnerOf(w.tokens[t])
            case None => t == at
            case Some(c) => c in w.conns && c in tk && tk[c] == t
  {
  }

  lemma InitialTokens(g: Config, w: Worker)
    requires Initial(g, w)
    ensures TokenInv(w)
  {
    var at :| at in w.tokens;
    assert Matched(w, map[], at);
  }

  lemma RunStep(g: Config, ws: seq<Worker>, es: seq<Event>, i: nat)
    requires Run(g, ws, es) && i < |es|
    ensures Legal(g, ws[i], es[i]) && ws[i + 1] == Step(g, ws[i], es[i])
  {
  }

  lemma {:induction false} RunTokens(g: Config, ws: seq<Worker>, es: seq<Event>, i: nat)
    requires Run(g, ws, es) && i < |ws|
    ensures TokenInv(ws[i])
    decreases i
  {
    if i == 0 {
      InitialTokens(g, ws[0]);
    } else {
      RunTokens(g, ws, es, i - 1);
      StepKeepsTokens(g, ws[i - 1], es[i - 1]);
    }
  }

  /** On every run, the unknown-token and missing-connection branches are never taken. */
  lemma NoDeadBranchTaken(g: Config, ws: seq<Worker>, es: seq<Event>, i: nat)
    requires Run(g, ws, es) && i < |es| && es[i].Complete?
    ensures es[i].token in ws[i].tokens
    ensures var op := ws[i].tokens[es[i].token];
            op.Read? || op.Write? ==> op.connId in ws[i].conns && op == Expected(op.connId, ws[i].conns[op.connId])
  {
    RunTokens(g, ws, es, i);
    hide TokenInv;
    CompletionFindsItsConnection(g, ws[i], es[i]);
  }

  /** Exactly one token has this owner. */
  ghost predicate ExactlyOne(w: Worker, owner: Option<nat>) {
    exists t :: t in w.tokens && OwnerOf(w.tokens[t]) == owner
                && forall t' :: t' in w.tokens && OwnerOf(w.tokens[t']) == owner ==> t' == t
  }

  /** On every run, failed writes included: exactly one Accept is outstanding, each live connection has exactly
      one outstanding operation, a Read while Reading and a Write with its own buffer while Writing. */
  lemma OneOperationInFlight(g: Config, ws: seq<Worker>, es: seq<Event>, i: nat)
    requires Run(g, ws, es) && i < |ws|
    ensures ws[i].inflight == ws[i].tokens.Keys
    ensures ExactlyOne(ws[i], None)
    ensures forall c :: c in ws[i].conns ==> ExactlyOne(ws[i], Some(c))
    ensures forall t, c :: t in ws[i].tokens && OwnerOf(ws[i].tokens[t]) == Some(c) ==>
              c in ws[i].conns && ws[i].tokens[t] == Expected(c, ws[i].conns[c])
  {
    RunTokens(g, ws, es, i);
    var w := ws[i];
    var tk, at :| Matched(w, tk, at);
    assert OwnerOf(w.tokens[at]) == None;
    forall c | c in w.conns
      ensures ExactlyOne(w, Some(c))
    {
      assert OwnerOf(w.tokens[tk[c]]) == Some(c);
    }
  }
}
