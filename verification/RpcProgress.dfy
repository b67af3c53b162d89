/** What the RPC protocol achieves: a reply that arrives is returned, however it is cut up; a call is refused as
    malformed only for its own reply; and a call that nothing interrupts ends as the client's retry loop says. */
module RpcProgress {
  import opened Bytes
  import opened Results
  import opened Frames
  import opened RpcProtocol
  import opened RpcConnections
  import opened RpcTheorems

  // ----- runs, piece by piece -----

  lemma {:induction false} RunJoin(cfg: Config, s: State, first: seq<Step>, second: seq<Step>)
    requires CanRun(cfg, s, first) && CanRun(cfg, Run(cfg, s, first), second)
    ensures CanRun(cfg, s, first + second)
    ensures Run(cfg, s, first + second) == Run(cfg, Run(cfg, s, first), second)
    decreases |first|
  {
    if first == [] {
      assert first + second == second;
    } else {
      assert (first + second)[1..] == first[1..] + second;
      RunJoin(cfg, Apply(cfg, s, first[0]), first[1..], second);
    }
  }

  lemma RunOne(cfg: Config, s: State, a: Step)
    requires Enabled(cfg, s, a)
    ensures CanRun(cfg, s, [a]) && Run(cfg, s, [a]) == Apply(cfg, s, a)
  {
    assert [a][1..] == [];
    assert Run(cfg, Apply(cfg, s, a), []) == Apply(cfg, s, a);
  }

  lemma RunFirst(cfg: Config, s: State, a: Step, rest: seq<Step>)
    requires Enabled(cfg, s, a) && CanRun(cfg, Apply(cfg, s, a), rest)
    ensures CanRun(cfg, s, [a] + rest) && Run(cfg, s, [a] + rest) == Run(cfg, Apply(cfg, s, a), rest)
  {
    assert ([a] + rest)[1..] == rest;
  }

  // ----- a reply arrives -----

  /** The counts cut a reply frame of which `from` bytes have been read: the client asks for the header first, and
      for the payload only then. */
  predicate Cuts(counts: seq<nat>, from: nat, length: nat)
    decreases |counts|
  {
    if counts == [] then from == 4 + length
    else
      && 0 < counts[0] <= (if from < 4 then 4 - from else 4 + length - from)
      && Cuts(counts[1..], from + counts[0], length)
  }

  function Receives(t: nat, counts: seq<nat>): (steps: seq<Step>)
    ensures |steps| == |counts|
  {
    seq(|counts|, i requires 0 <= i < |counts| => Receive(t, counts[i]))
  }

  /** Thread `t` has read the first `from` bytes of this reply to its request. */
  ghost predicate Reading(s: State, t: nat, reply: seq<byte>, from: nat) {
    && t in s.threads && s.threads[t].Receiving? && s.threads[t].conn < |s.conns| && |reply| < TWO_TO_32
    && var Receiving(request, _, c, base, buffer) := s.threads[t];
       MidReply(s.conns[c], request, base, buffer) && s.conns[c].log[base].reply == reply && |buffer| == from
  }

  /** A reply the client takes: a JSON object. */
  predicate IsGood(cfg: Config, reply: seq<byte>) {
    reply != [] && cfg.parses(reply)
  }

  /** The connection with the rest of what the server wrote read. */
  function AllRead(c: Conn): Conn {
    c.(clientRead := |c.fromServer|)
  }

  /** The state once the reply has been read: the thread is about to release its connection, or the call has ended. */
  function Arrived(cfg: Config, s: State, t: nat, reply: seq<byte>): State
    requires t in s.threads && s.threads[t].Receiving? && s.threads[t].conn < |s.conns|
  {
    var Receiving(request, attempt, c, base, _) := s.threads[t];
    var conns := s.conns[c := AllRead(s.conns[c])];
    if IsGood(cfg, reply) then
      s.(conns := conns, threads := s.threads[t := Releasing(request, attempt, c, base, reply)])
    else
      s.(conns := conns, threads := s.threads - {t}, closed := s.closed + {c},
         outcomes := s.outcomes + [Raised(request, MalformedReply)])
  }

  /** What the client holds after the next chunk, and how much it wants then. */
  lemma ChunkRead(c: Conn, request: seq<byte>, base: nat, buffer: seq<byte>, reply: seq<byte>, count: nat)
    requires MidReply(c, request, base, buffer) && c.log[base].reply == reply && |reply| < TWO_TO_32
    requires 0 < count <= (if |buffer| < 4 then 4 - |buffer| else 4 + |reply| - |buffer|)
    ensures count <= Wanted(buffer) && c.clientRead + count <= |c.fromServer|
    ensures var more := buffer + c.fromServer[c.clientRead..c.clientRead + count];
            && |more| == |buffer| + count
            && (|more| < 4 + |reply| ==>
                  Wanted(more) > 0 && MidReply(c.(clientRead := c.clientRead + count), request, base, more))
            && (|more| == 4 + |reply| ==>
                  Wanted(more) <= 0 && more[4..] == reply && c.clientRead + count == |c.fromServer|)
  {
    assert RepliesOf(c.log)[base] == reply;
    WantedOfFrame(reply, |buffer|);
    NextChunk(c, request, base, buffer, count);
    WantedOfFrame(reply, |buffer| + count);
    assert buffer + c.fromServer[c.clientRead..c.clientRead + count] == Frame(reply)[..|buffer| + count];
  }

  /** The state with one more chunk read by thread `t`. */
  function WithChunk(s: State, t: nat, count: nat): State
    requires t in s.threads && s.threads[t].Receiving? && s.threads[t].conn < |s.conns|
    requires s.conns[s.threads[t].conn].clientRead + count <= |s.conns[s.threads[t].conn].fromServer|
  {
    var th := s.threads[t];
    var c := s.conns[th.conn];
    s.(conns := s.conns[th.conn := c.(clientRead := c.clientRead + count)],
       threads := s.threads[t := th.(buffer := th.buffer + c.fromServer[c.clientRead..c.clientRead + count])])
  }

  lemma ChunkArrives(cfg: Config, s: State, t: nat, reply: seq<byte>, count: nat)
    requires t in s.threads && s.threads[t].Receiving? && s.threads[t].conn < |s.conns|
    requires s.conns[s.threads[t].conn].clientRead + count <= |s.conns[s.threads[t].conn].fromServer|
    ensures Arrived(cfg, WithChunk(s, t, count), t, reply) == Arrived(cfg, s, t, reply)
  {
    var s', c := WithChunk(s, t, count), s.threads[t].conn;
    assert s'.conns[c := AllRead(s'.conns[c])] == s.conns[c := AllRead(s.conns[c])];
  }

  /** A chunk that is not the last. */
  lemma ReceivePart(cfg: Config, s: State, t: nat, reply: seq<byte>, from: nat, count: nat)
    requires Reading(s, t, reply, from) && 0 < count <= (if from < 4 then 4 - from else 4 + |reply| - from)
    requires from + count < 4 + |reply|
    ensures Enabled(cfg, s, Receive(t, count))
    ensures Apply(cfg, s, Receive(t, count)) == WithChunk(s, t, count)
    ensures Reading(WithChunk(s, t, count), t, reply, from + count)
  {
    var Receiving(request, _, c, base, buffer) := s.threads[t];
    ChunkRead(s.conns[c], request, base, buffer, reply, count);
  }

  /** One chunk of the reply. */
  lemma ReceiveOne(cfg: Config, s: State, t: nat, reply: seq<byte>, from: nat, count: nat)
    requires Reading(s, t, reply, from) && 0 < count <= (if from < 4 then 4 - from else 4 + |reply| - from)
    ensures Enabled(cfg, s, Receive(t, count))
    ensures var s' := Apply(cfg, s, Receive(t, count));
            if from + count < 4 + |reply| then
              Reading(s', t, reply, from + count) && Arrived(cfg, s', t, reply) == Arrived(cfg, s, t, reply)
            else s' == Arrived(cfg, s, t, reply)
  {
    if from + count < 4 + |reply| {
      ReceivePart(cfg, s, t, reply, from, count);
      ChunkArrives(cfg, s, t, reply, count);
    } else {
      var Receiving(request, _, c, base, buffer) := s.threads[t];
      ChunkRead(s.conns[c], request, base, buffer, reply, count);
    }
  }

  /** All of it. */
  lemma {:induction false} ReceiveAll(cfg: Config, s: State, t: nat, reply: seq<byte>, from: nat, counts: seq<nat>)
    requires Reading(s, t, reply, from) && counts != [] && Cuts(counts, from, |reply|)
    ensures CanRun(cfg, s, Receives(t, counts)) && Run(cfg, s, Receives(t, counts)) == Arrived(cfg, s, t, reply)
    decreases |counts|
  {
    var step, rest := Receive(t, counts[0]), Receives(t, counts[1..]);
    ReceiveOne(cfg, s, t, reply, from, counts[0]);
    assert Receives(t, counts) == [step] + rest;
    if counts[1..] == [] {
      assert [step] + rest == [step];
      RunOne(cfg, s, step);
    } else {
      NotYetThere(counts, from, |reply|);
      ReceiveAll(cfg, Apply(cfg, s, step), t, reply, from + counts[0], counts[1..]);
      RunFirst(cfg, s, step, rest);
    }
  }

  lemma NotYetThere(counts: seq<nat>, from: nat, length: nat)
    requires Cuts(counts, from, length) && |counts| > 1
    ensures from + counts[0] < 4 + length
  {
    assert counts[1..][0] > 0;
  }

  // ----- a request goes out -----

  /** The counts cut up what is left of a request frame of which `from` bytes have been sent. */
  predicate Pieces(counts: seq<nat>, from: nat, length: nat)
    decreases |counts|
  {
    if counts == [] then from == 4 + length else counts[0] > 0 && Pieces(counts[1..], from + counts[0], length)
  }

  lemma {:induction false} PiecesFit(counts: seq<nat>, from: nat, length: nat)
    requires Pieces(counts, from, length)
    ensures from <= 4 + length && (counts != [] ==> from < 4 + length)
    decreases |counts|
  {
    if counts != [] { PiecesFit(counts[1..], from + counts[0], length); }
  }

  function Sends(t: nat, counts: seq<nat>): (steps: seq<Step>)
    ensures |steps| == |counts|
  {
    seq(|counts|, i requires 0 <= i < |counts| => Send(t, counts[i]))
  }

  /** Thread `t` has sent the first `sent` bytes of its request. */
  ghost predicate Requesting(s: State, t: nat, sent: nat) {
    && t in s.threads && s.threads[t].Sending? && s.threads[t].conn < |s.conns| && s.threads[t].sent == sent
    && MidSend(s.conns[s.threads[t].conn], s.threads[t].request, s.threads[t].base, sent)
  }

  /** Nothing else has changed. */
  predicate OnlyThread(s: State, s': State, t: nat, th: Thread) {
    && s'.threads == s.threads[t := th] && s'.pool == s.pool && s'.closed == s.closed && s'.outcomes == s.outcomes
  }

  lemma SendOne(cfg: Config, s: State, t: nat, sent: nat, count: nat)
    requires Requesting(s, t, sent) && 0 < count <= 4 + |s.threads[t].request| - sent
    ensures Enabled(cfg, s, Send(t, count))
    ensures var Sending(request, attempt, c, base, _) := s.threads[t];
            var s' := Apply(cfg, s, Send(t, count));
            if sent + count < 4 + |request| then
              Requesting(s', t, sent + count) && OnlyThread(s, s', t, Sending(request, attempt, c, base, sent + count))
            else Waiting(s', t) && OnlyThread(s, s', t, Receiving(request, attempt, c, base, []))
  {
    var th := s.threads[t];
    SendMore(s.conns[th.conn], th.request, th.base, sent, count);
  }

  /** A request goes out in any pieces; then the thread waits for its reply. */
  lemma {:induction false} RequestGoesOut(cfg: Config, s: State, t: nat, sent: nat, counts: seq<nat>)
    requires Requesting(s, t, sent) && Pieces(counts, sent, |s.threads[t].request|)
    ensures CanRun(cfg, s, Sends(t, counts))
    ensures var Sending(request, attempt, c, base, _) := s.threads[t];
            var s' := Run(cfg, s, Sends(t, counts));
            Waiting(s', t) && OnlyThread(s, s', t, Receiving(request, attempt, c, base, []))
    decreases |counts|
  {
    var request := s.threads[t].request;
    assert sent < |Frame(request)|;
    PiecesFit(counts[1..], sent + counts[0], |request|);
    var step, rest := Send(t, counts[0]), Sends(t, counts[1..]);
    SendOne(cfg, s, t, sent, counts[0]);
    assert Sends(t, counts) == [step] + rest;
    if counts[1..] == [] {
      assert [step] + rest == [step];
      RunOne(cfg, s, step);
    } else {
      PiecesFit(counts[1..], sent + counts[0], |request|);
      RequestGoesOut(cfg, Apply(cfg, s, step), t, sent + counts[0], counts[1..]);
      RunFirst(cfg, s, step, rest);
    }
  }

  /** Thread `t` has sent its request on this connection and waits for the reply. */
  ghost predicate Waiting(s: State, t: nat) {
    && t in s.threads && s.threads[t].Receiving? && s.threads[t].conn < |s.conns| && s.threads[t].buffer == []
    && Unanswered(s.conns[s.threads[t].conn], s.threads[t].request, s.threads[t].base)
  }

  /** The server answers a request that waits. */
  lemma ServeWaiter(cfg: Config, s: State, t: nat, reply: seq<byte>)
    requires Waiting(s, t) && |reply| < TWO_TO_32
    ensures Enabled(cfg, s, Serve(s.threads[t].conn, reply))
    ensures var s' := Apply(cfg, s, Serve(s.threads[t].conn, reply));
            && Reading(s', t, reply, 0) && s'.threads == s.threads && s'.pool == s.pool && s'.closed == s.closed
            && s'.outcomes == s.outcomes
            && s'.conns == s.conns[s.threads[t].conn := ServeOne(s.conns[s.threads[t].conn], reply)]
  {
    var th := s.threads[t];
    ServeUnanswered(s.conns[th.conn], th.request, th.base, reply);
  }

  /** The steps in which a request is answered and the call ends. */
  function Exchanged(cfg: Config, t: nat, c: nat, reply: seq<byte>, counts: seq<nat>): seq<Step> {
    [Serve(c, reply)] + (Receives(t, counts) + (if IsGood(cfg, reply) then [Release(t)] else []))
  }

  /** The state with the call of `t` ended like this, its connection pooled or closed. */
  ghost predicate CallEnds(s: State, s': State, t: nat, o: Outcome, pool: seq<nat>, closed: set<nat>) {
    s'.threads == s.threads - {t} && s'.outcomes == s.outcomes + [o] && s'.pool == pool && s'.closed == closed
  }

  /** A reply that arrives ends the call, however the network cuts it up: a JSON object is returned, as the answer to
      this very request, and the connection goes back to the pool if there is room; anything else, an empty frame
      included, is a malformed reply and costs the connection. */
  lemma ReplyArrives(cfg: Config, s: State, t: nat, reply: seq<byte>, counts: seq<nat>)
    requires Waiting(s, t) && |reply| < TWO_TO_32 && Cuts(counts, 0, |reply|)
    ensures var Receiving(request, _, c, base, _) := s.threads[t];
            var steps := Exchanged(cfg, t, c, reply, counts);
            && CanRun(cfg, s, steps)
            && var s' := Run(cfg, s, steps);
               if reply != [] && cfg.parses(reply) then
                 CallEnds(s, s', t, Returned(request, reply, c, base),
                          if |s.pool| < cfg.maxPoolSize then s.pool + [c] else s.pool,
                          if |s.pool| < cfg.maxPoolSize then s.closed else s.closed + {c})
               else CallEnds(s, s', t, Raised(request, MalformedReply), s.pool, s.closed + {c})
  {
    var c := s.threads[t].conn;
    ServeWaiter(cfg, s, t, reply);
    var served := Apply(cfg, s, Serve(c, reply));
    ReceiveAll(cfg, served, t, reply, 0, counts);
    var arrived := Arrived(cfg, served, t, reply);
    var last := if IsGood(cfg, reply) then [Release(t)] else [];
    if IsGood(cfg, reply) {
      RunOne(cfg, arrived, Release(t));
      assert s.threads[t := arrived.threads[t]] - {t} == s.threads - {t};
    }
    RunJoin(cfg, served, Receives(t, counts), last);
    RunFirst(cfg, s, Serve(c, reply), Receives(t, counts) + last);
  }

  // ----- only its own reply refuses a call -----

  /** The server has answered this request with something that is no JSON object. */
  ghost predicate BadlyAnswered(cfg: Config, s: State, request: seq<byte>) {
    exists c: nat, i: nat :: AnsweredBadly(cfg, s, request, c, i)
  }

  predicate AnsweredBadly(cfg: Config, s: State, request: seq<byte>, c: nat, i: nat) {
    && c < |s.conns| && i < |s.conns[c].log|
    && s.conns[c].log[i].request == request && !IsGood(cfg, s.conns[c].log[i].reply)
  }

  ghost predicate Justified(cfg: Config, s: State, o: Outcome) {
    && (o.Raised? && o.error == MalformedReply ==> BadlyAnswered(cfg, s, o.request))
    && (o.Returned? ==> IsGood(cfg, o.reply))
  }

  /** Whoever is about to return a reply has a good one; and every outcome is justified. */
  ghost predicate AllJustified(cfg: Config, s: State) {
    && (forall t | t in s.threads && s.threads[t].Releasing? :: IsGood(cfg, s.threads[t].reply))
    && (forall i {:trigger Justified(cfg, s, s.outcomes[i])} | 0 <= i < |s.outcomes| ::
          Justified(cfg, s, s.outcomes[i]))
  }

  predicate LogsGrow(s: State, s': State) {
    |s.conns| <= |s'.conns| && forall c | 0 <= c < |s.conns| :: s.conns[c].log <= s'.conns[c].log
  }

  lemma StepGrowsLogs(cfg: Config, s: State, step: Step)
    requires Enabled(cfg, s, step)
    ensures LogsGrow(s, Apply(cfg, s, step))
  {
  }

  lemma StaysJustified(cfg: Config, s: State, s': State, o: Outcome)
    requires LogsGrow(s, s') && Justified(cfg, s, o)
    ensures Justified(cfg, s', o)
  {
    if o.Raised? && o.error == MalformedReply {
      var c: nat, i: nat :| AnsweredBadly(cfg, s, o.request, c, i);
      assert AnsweredBadly(cfg, s', o.request, c, i);
    }
  }

  /** A step that adds no outcome, or one that is justified. */
  lemma AddsJustified(cfg: Config, s: State, s': State)
    requires AllJustified(cfg, s) && LogsGrow(s, s')
    requires forall t | t in s'.threads && s'.threads[t].Releasing? :: IsGood(cfg, s'.threads[t].reply)
    requires || s'.outcomes == s.outcomes
             || (|s'.outcomes| == |s.outcomes| + 1 && s'.outcomes[..|s.outcomes|] == s.outcomes
                 && Justified(cfg, s', s'.outcomes[|s.outcomes|]))
    ensures AllJustified(cfg, s')
  {
    forall i | 0 <= i < |s'.outcomes| ensures Justified(cfg, s', s'.outcomes[i]) {
      if i < |s.outcomes| {
        assert s'.outcomes[i] == s.outcomes[i];
        assert Justified(cfg, s, s.outcomes[i]);
        StaysJustified(cfg, s, s', s.outcomes[i]);
      }
    }
  }

  /** A chunk that ends a call as malformed is the end of a bad reply to its request. */
  lemma RefusedForItsReply(cfg: Config, s: State, t: nat, count: nat)
    requires Inv(cfg, s) && Enabled(cfg, s, Receive(t, count))
    requires Apply(cfg, s, Receive(t, count)).outcomes != s.outcomes
    ensures AnsweredBadly(cfg, Apply(cfg, s, Receive(t, count)), s.threads[t].request, s.threads[t].conn,
                          s.threads[t].base)
  {
    assert ThreadOk(cfg, s, s.threads[t]);
    ReadStep(cfg, s, s.threads[t], count);
  }

  lemma ReceiveIsJustified(cfg: Config, s: State, t: nat, count: nat)
    requires Inv(cfg, s) && AllJustified(cfg, s) && Enabled(cfg, s, Receive(t, count))
    ensures AllJustified(cfg, Apply(cfg, s, Receive(t, count)))
  {
    var s' := Apply(cfg, s, Receive(t, count));
    StepGrowsLogs(cfg, s, Receive(t, count));
    if s'.outcomes != s.outcomes { RefusedForItsReply(cfg, s, t, count); }
    AddsJustified(cfg, s, s');
  }

  lemma StepIsJustified(cfg: Config, s: State, step: Step)
    requires Inv(cfg, s) && AllJustified(cfg, s) && Enabled(cfg, s, step)
    ensures AllJustified(cfg, Apply(cfg, s, step))
  {
    if step.Receive? {
      ReceiveIsJustified(cfg, s, step.thread, step.count);
    } else {
      StepGrowsLogs(cfg, s, step);
      AddsJustified(cfg, s, Apply(cfg, s, step));
    }
  }

  lemma {:induction false} RunIsJustified(cfg: Config, s: State, steps: seq<Step>)
    requires Inv(cfg, s) && AllJustified(cfg, s) && CanRun(cfg, s, steps)
    ensures AllJustified(cfg, Run(cfg, s, steps))
    decreases |steps|
  {
    if steps != [] {
      StepIsJustified(cfg, s, steps[0]);
      StepKeepsInv(cfg, s, steps[0]);
      RunIsJustified(cfg, Apply(cfg, s, steps[0]), steps[1..]);
    }
  }

  /** In every run: a call is refused as malformed only when the server has answered that request with an empty
      payload or one that does not parse, and what a call returns is neither. */
  lemma OnlyBadRepliesAreRefused(cfg: Config, steps: seq<Step>, i: nat)
    requires CanRun(cfg, Init(), steps) && i < |Run(cfg, Init(), steps).outcomes|
    ensures var s := Run(cfg, Init(), steps);
            var o := s.outcomes[i];
            && (o.Raised? && o.error == MalformedReply ==>
                  exists c: nat, k: nat ::
                    && c < |s.conns| && k < |s.conns[c].log| && s.conns[c].log[k].request == o.request
                    && (s.conns[c].log[k].reply == [] || !cfg.parses(s.conns[c].log[k].reply)))
            && (o.Returned? ==> o.reply != [] && cfg.parses(o.reply))
  {
    RunIsJustified(cfg, Init(), steps);
    var s := Run(cfg, Init(), steps);
    assert Justified(cfg, s, s.outcomes[i]);
    if s.outcomes[i].Raised? && s.outcomes[i].error == MalformedReply {
      var c: nat, k: nat :| AnsweredBadly(cfg, s, s.outcomes[i].request, c, k);
    }
  }
}
