/** A call of the RPC protocol that nothing interrupts, against the client's own retry loop. */
module RpcCalls {
  import opened Bytes
  import opened Results
  import opened Frames
  import opened RpcProtocol
  import opened RpcConnections
  import opened RpcTheorems
  import opened RpcProgress
  import opened EnclaveClient

  type Payload = seq<byte>

  /** The protocol can play this attempt: vsock is there, and the reply is one the client takes. */
  predicate Playable(cfg: Config, a: Attempt<Payload>) {
    a.connect != NoVsock && (a.exchange.Replies? ==> IsGood(cfg, a.exchange.reply) && |a.exchange.reply| < TWO_TO_32)
  }

  /** What the server writes where the attempt says that the reply is garbled. */
  predicate IsGarbage(cfg: Config, garbage: Payload) {
    !IsGood(cfg, garbage) && |garbage| < TWO_TO_32
  }

  function ErrorOf(fault: IoError): ErrorKind {
    match fault
    case TimeoutError => TimedOut
    case ConnectionError => CommunicationFailed
  }

  /** The call has ended: the thread is gone and this is one more outcome. */
  ghost predicate Over(s: State, s': State, t: nat, o: Outcome) {
    s'.threads == s.threads - {t} && s'.outcomes == s.outcomes + [o]
  }

  ghost predicate OverWith(s: State, s': State, t: nat, request: Payload, reply: Payload) {
    exists c: nat, i: nat :: Over(s, s', t, Returned(request, reply, c, i))
  }

  /** What one attempt leads to: the end of the call, or a pause when it was a fault and there are attempts left. */
  ghost predicate AttemptEnds(cfg: Config, s: State, s': State, t: nat, request: Payload, attempt: nat,
                              h: Happening<Payload>) {
    match h
    case Answered(reply) => OverWith(s, s', t, request, reply)
    case Undecodable => Over(s, s', t, Raised(request, MalformedReply))
    case Faulted(fault) =>
      if attempt >= cfg.maxRetries then Over(s, s', t, Raised(request, ErrorOf(fault)))
      else s'.threads == s.threads[t := Sleeping(request, attempt)] && s'.outcomes == s.outcomes
    case Unsupported => false
  }

  /** Header and payload, each in one chunk. */
  function TwoChunks(reply: Payload): (counts: seq<nat>)
    ensures Cuts(counts, 0, |reply|)
  {
    var counts := if reply == [] then [4] else [4, |reply|];
    assert counts[1..] == if reply == [] then [] else [|reply|];
    assert reply != [] ==> counts[1..][1..] == [];
    assert Cuts([], 4 + |reply|, |reply|);
    counts
  }

  /** The whole request goes out in one piece. */
  lemma SendWhole(cfg: Config, s: State, t: nat)
    requires Inv(cfg, s) && t in s.threads && s.threads[t].Sending? && s.threads[t].sent == 0
    ensures var Sending(request, attempt, c, base, _) := s.threads[t];
            && Enabled(cfg, s, Send(t, 4 + |request|))
            && var s' := Apply(cfg, s, Send(t, 4 + |request|));
               && Waiting(s', t) && s'.threads == s.threads[t := Receiving(request, attempt, c, base, [])]
               && s'.pool == s.pool && s'.closed == s.closed && s'.outcomes == s.outcomes
  {
    var Sending(request, attempt, c, base, _) := s.threads[t];
    assert ThreadOk(cfg, s, s.threads[t]);
    SendMore(s.conns[c], request, base, 0, 4 + |request|);
    assert Frame(request)[0..0 + (4 + |request|)] == Frame(request)[0..|Frame(request)|];
  }

  /** A reply, or garbage, to a request that is about to be sent. */
  lemma Answer(cfg: Config, s: State, t: nat, reply: Payload) returns (steps: seq<Step>, s': State)
    requires Inv(cfg, s) && t in s.threads && s.threads[t].Sending? && s.threads[t].sent == 0 && |reply| < TWO_TO_32
    ensures CanRun(cfg, s, steps) && s' == Run(cfg, s, steps)
    ensures var Sending(request, _, c, base, _) := s.threads[t];
            if IsGood(cfg, reply) then
              && Over(s, s', t, Returned(request, reply, c, base))
              && s'.pool == if |s.pool| < cfg.maxPoolSize then s.pool + [c] else s.pool
            else Over(s, s', t, Raised(request, MalformedReply)) && s'.pool == s.pool
  {
    var Sending(request, attempt, c, base, _) := s.threads[t];
    var send := Send(t, 4 + |request|);
    SendWhole(cfg, s, t);
    var sent := Apply(cfg, s, send);
    ReplyArrives(cfg, sent, t, reply, TwoChunks(reply));
    var rest := Exchanged(cfg, t, c, reply, TwoChunks(reply));
    RunFirst(cfg, s, send, rest);
    steps, s' := [send] + rest, Run(cfg, sent, rest);
    assert sent.threads - {t} == s.threads - {t};
  }

  /** The exchange of an attempt that has its connection. */
  lemma ExchangePlays(cfg: Config, s: State, t: nat, a: Attempt<Payload>, garbage: Payload)
      returns (steps: seq<Step>, s': State)
    requires Inv(cfg, s) && t in s.threads && s.threads[t].Sending? && s.threads[t].sent == 0
    requires Playable(cfg, a) && IsGarbage(cfg, garbage)
    ensures CanRun(cfg, s, steps) && s' == Run(cfg, s, steps)
    ensures AttemptEnds(cfg, s, s', t, s.threads[t].request, s.threads[t].attempt, Happens(a, true))
    ensures s'.pool
            == if a.exchange.Replies? && |s.pool| < cfg.maxPoolSize then s.pool + [s.threads[t].conn] else s.pool
  {
    match a.exchange
    case Replies(reply) => steps, s' := Answer(cfg, s, t, reply);
    case Garbled => steps, s' := Answer(cfg, s, t, garbage);
    case Fails(fault) =>
      var step := Fault(t, fault == TimeoutError);
      RunOne(cfg, s, step);
      steps, s' := [step], Apply(cfg, s, step);
  }

  lemma Rebased(cfg: Config, s: State, s1: State, s': State, t: nat, request: Payload, attempt: nat,
                h: Happening<Payload>)
    requires t in s.threads && s1.outcomes == s.outcomes
    requires t in s1.threads && s1.threads == s.threads[t := s1.threads[t]]
    requires AttemptEnds(cfg, s1, s', t, request, attempt, h)
    ensures AttemptEnds(cfg, s, s', t, request, attempt, h)
  {
    assert s1.threads - {t} == s.threads - {t};
    if h.Answered? {
      var c: nat, i: nat :| Over(s1, s', t, Returned(request, h.reply, c, i));
      assert Over(s, s', t, Returned(request, h.reply, c, i));
    }
  }

  /** An attempt whose connection comes from the pool. */
  lemma PooledPlays(cfg: Config, s: State, t: nat, a: Attempt<Payload>, garbage: Payload)
      returns (steps: seq<Step>, s': State)
    requires Inv(cfg, s) && t in s.threads && s.threads[t].Acquiring? && s.pool != []
    requires Playable(cfg, a) && IsGarbage(cfg, garbage)
    ensures CanRun(cfg, s, steps) && s' == Run(cfg, s, steps)
    ensures AttemptEnds(cfg, s, s', t, s.threads[t].request, s.threads[t].attempt, Happens(a, true))
    ensures PoolAfter(s.pool, Happens(a, true).Answered?, cfg.maxPoolSize, s'.pool)
  {
    var take := TakePooled(t);
    var s1 := Apply(cfg, s, take);
    StepKeepsInv(cfg, s, take);
    var rest;
    rest, s' := ExchangePlays(cfg, s1, t, a, garbage);
    RunFirst(cfg, s, take, rest);
    steps := [take] + rest;
    Rebased(cfg, s, s1, s', t, s.threads[t].request, s.threads[t].attempt, Happens(a, true));
    assert s.pool[..|s.pool| - 1] + [s.pool[|s.pool| - 1]] == s.pool;
  }

  /** An attempt that opens a connection. */
  lemma ConnectedPlays(cfg: Config, s: State, t: nat, a: Attempt<Payload>, garbage: Payload)
      returns (steps: seq<Step>, s': State)
    requires Inv(cfg, s) && t in s.threads && s.threads[t].Acquiring? && s.pool == [] && a.connect.Connects?
    requires Playable(cfg, a) && IsGarbage(cfg, garbage)
    ensures CanRun(cfg, s, steps) && s' == Run(cfg, s, steps)
    ensures AttemptEnds(cfg, s, s', t, s.threads[t].request, s.threads[t].attempt, Happens(a, false))
    ensures PoolAfter(s.pool, Happens(a, false).Answered?, cfg.maxPoolSize, s'.pool)
  {
    var find, connect := FindPoolEmpty(t), Connect(t);
    var s1 := Apply(cfg, s, find);
    StepKeepsInv(cfg, s, find);
    var s2 := Apply(cfg, s1, connect);
    StepKeepsInv(cfg, s1, connect);
    var rest;
    rest, s' := ExchangePlays(cfg, s2, t, a, garbage);
    RunFirst(cfg, s1, connect, rest);
    RunFirst(cfg, s, find, [connect] + rest);
    steps := [find] + ([connect] + rest);
    assert s2.threads == s.threads[t := s2.threads[t]];
    Rebased(cfg, s, s2, s', t, s.threads[t].request, s.threads[t].attempt, Happens(a, false));
  }

  /** An attempt that cannot connect. */
  lemma RefusedPlays(cfg: Config, s: State, t: nat, a: Attempt<Payload>) returns (steps: seq<Step>, s': State)
    requires t in s.threads && s.threads[t].Acquiring? && s.pool == [] && a.connect.Refuses?
    ensures CanRun(cfg, s, steps) && s' == Run(cfg, s, steps)
    ensures AttemptEnds(cfg, s, s', t, s.threads[t].request, s.threads[t].attempt, Happens(a, false))
    ensures s'.pool == s.pool
  {
    var find, refuse := FindPoolEmpty(t), RefuseConnection(t, a.connect.fault == TimeoutError);
    var s1 := Apply(cfg, s, find);
    RunOne(cfg, s1, refuse);
    RunFirst(cfg, s, find, [refuse]);
    steps, s' := [find] + [refuse], Apply(cfg, s1, refuse);
    assert s1.threads - {t} == s.threads - {t};
  }

  lemma AttemptPlays(cfg: Config, s: State, t: nat, a: Attempt<Payload>, garbage: Payload)
      returns (steps: seq<Step>, s': State)
    requires Inv(cfg, s) && t in s.threads && s.threads[t].Acquiring?
    requires Playable(cfg, a) && IsGarbage(cfg, garbage)
    ensures CanRun(cfg, s, steps) && s' == Run(cfg, s, steps)
    ensures AttemptEnds(cfg, s, s', t, s.threads[t].request, s.threads[t].attempt, Happens(a, s.pool != []))
    ensures PoolAfter(s.pool, Happens(a, s.pool != []).Answered?, cfg.maxPoolSize, s'.pool)
  {
    if s.pool != [] {
      steps, s' := PooledPlays(cfg, s, t, a, garbage);
    } else if a.connect.Connects? {
      steps, s' := ConnectedPlays(cfg, s, t, a, garbage);
    } else {
      steps, s' := RefusedPlays(cfg, s, t, a);
    }
  }

  /** The call ends like this in the protocol. */
  ghost predicate EndsLike(s: State, s': State, t: nat, request: Payload, r: Result<Payload, ClientError>) {
    match r
    case Success(reply) => OverWith(s, s', t, request, reply)
    case Failure(EnclaveTimeoutError) => Over(s, s', t, Raised(request, TimedOut))
    case Failure(EnclaveCommunicationError) => Over(s, s', t, Raised(request, CommunicationFailed))
    case Failure(MalformedEnclaveResponseError) => Over(s, s', t, Raised(request, MalformedReply))
  }

  lemma LastAttempt(cfg: Config, s: State, s': State, t: nat, request: Payload, attempt: nat, h: Happening<Payload>)
    requires AttemptEnds(cfg, s, s', t, request, attempt, h) && (h.Faulted? ==> attempt >= cfg.maxRetries)
    ensures EndsLike(s, s', t, request, Ended(h))
  {
  }

  lemma EndsAlike(s: State, s1: State, s': State, t: nat, request: Payload, script: seq<Attempt<Payload>>, pooled: nat,
                  budget: nat)
    requires |script| >= budget > 0 && t in s1.threads && s1.outcomes == s.outcomes
    requires s1.threads == s.threads[t := s1.threads[t]]
    requires EndsLike(s1, s', t, request, Verdict(script, pooled, budget).1)
    ensures EndsLike(s, s', t, request, Verdict(script, pooled, budget).1)
  {
    assert s1.threads - {t} == s.threads - {t};
    var r := Verdict(script, pooled, budget).1;
    if r.Success? {
      var c: nat, i: nat :| Over(s1, s', t, Returned(request, r.value, c, i));
      assert Over(s, s', t, Returned(request, r.value, c, i));
    }
  }

  lemma LaterPool(pool: seq<nat>, n: nat, answered: bool, max: int, after: seq<nat>)
    requires n > 0 && PoolAfterCall(Left(pool, 1), n, answered, max, after)
    ensures PoolAfterCall(pool, n + 1, answered, max, after)
  {
  }

  /** The call from its next attempt on has ended as the verdict on its script says. */
  ghost predicate RestEnds(cfg: Config, s: State, s': State, t: nat, request: Payload, script: seq<Attempt<Payload>>,
                           budget: nat)
    requires |script| >= budget > 0
  {
    var v := Verdict(script, |s.pool|, budget);
    EndsLike(s, s', t, request, v.1) && PoolAfterCall(s.pool, v.0, v.1.Success?, cfg.maxPoolSize, s'.pool)
  }

  lemma RestEndsNow(cfg: Config, s: State, s': State, t: nat, request: Payload, script: seq<Attempt<Payload>>,
                    budget: nat, attempt: nat)
    requires |script| >= budget > 0 && budget == cfg.maxRetries + 1 - attempt
    requires var h := Happens(script[0], s.pool != []);
             && AttemptEnds(cfg, s, s', t, request, attempt, h) && (h.Faulted? ==> budget == 1)
             && PoolAfter(s.pool, h.Answered?, cfg.maxPoolSize, s'.pool)
    ensures RestEnds(cfg, s, s', t, request, script, budget)
  {
    var h := Happens(script[0], s.pool != []);
    LastAttempt(cfg, s, s', t, request, attempt, h);
    PoolAfterLast(s.pool, 0, s.pool, h.Answered?, cfg.maxPoolSize, s'.pool);
  }

  lemma RestEndsLater(cfg: Config, s: State, awake: State, s': State, t: nat, request: Payload,
                      script: seq<Attempt<Payload>>, budget: nat)
    requires |script| >= budget > 1 && Happens(script[0], s.pool != []).Faulted?
    requires t in awake.threads && awake.outcomes == s.outcomes && awake.threads == s.threads[t := awake.threads[t]]
    requires awake.pool == Left(s.pool, 1) && RestEnds(cfg, awake, s', t, request, script[1..], budget - 1)
    ensures RestEnds(cfg, s, s', t, request, script, budget)
  {
    var v := Verdict(script[1..], |awake.pool|, budget - 1);
    EndsAlike(s, awake, s', t, request, script[1..], |awake.pool|, budget - 1);
    LaterPool(s.pool, v.0, v.1.Success?, cfg.maxPoolSize, s'.pool);
    assert Verdict(script, |s.pool|, budget) == (v.0 + 1, v.1);
  }

  /** A thread wakes up after a fault and makes its next attempt. */
  lemma WakesUp(cfg: Config, s: State, s': State, t: nat, request: Payload, attempt: nat, h: Happening<Payload>)
    requires Inv(cfg, s') && t in s.threads && AttemptEnds(cfg, s, s', t, request, attempt, h)
    requires h.Faulted? && attempt < cfg.maxRetries
    ensures Enabled(cfg, s', Wake(t))
    ensures var awake := Apply(cfg, s', Wake(t));
            && Inv(cfg, awake) && awake.threads == s.threads[t := Acquiring(request, attempt + 1)]
            && awake.pool == s'.pool && awake.outcomes == s.outcomes
  {
    StepKeepsInv(cfg, s', Wake(t));
  }

  lemma GoesOn(cfg: Config, s: State, steps: seq<Step>, next: Step, rest: seq<Step>)
    requires CanRun(cfg, s, steps) && Enabled(cfg, Run(cfg, s, steps), next)
    requires CanRun(cfg, Apply(cfg, Run(cfg, s, steps), next), rest)
    ensures CanRun(cfg, s, steps + ([next] + rest))
    ensures Run(cfg, s, steps + ([next] + rest)) == Run(cfg, Apply(cfg, Run(cfg, s, steps), next), rest)
  {
    RunFirst(cfg, Run(cfg, s, steps), next, rest);
    RunJoin(cfg, s, steps, [next] + rest);
  }

  /** The rest of a call, from its next attempt on. */
  lemma {:induction false} RestPlays(cfg: Config, s: State, t: nat, script: seq<Attempt<Payload>>, budget: nat,
                                     garbage: Payload) returns (steps: seq<Step>, s': State)
    requires Inv(cfg, s) && t in s.threads && s.threads[t].Acquiring?
    requires |script| >= budget > 0 && budget == cfg.maxRetries + 1 - s.threads[t].attempt
    requires (forall a | a in script :: Playable(cfg, a)) && IsGarbage(cfg, garbage)
    ensures CanRun(cfg, s, steps) && s' == Run(cfg, s, steps)
    ensures RestEnds(cfg, s, s', t, s.threads[t].request, script, budget)
    decreases |script|, 1
  {
    var first, paused := AttemptPlays(cfg, s, t, script[0], garbage);
    if Happens(script[0], s.pool != []).Faulted? && budget > 1 {
      steps, s' := NextPlays(cfg, s, t, script, budget, garbage, first, paused);
    } else {
      steps, s' := first, paused;
      RestEndsNow(cfg, s, s', t, s.threads[t].request, script, budget, s.threads[t].attempt);
    }
  }

  /** The attempts after one that was a fault. */
  lemma {:induction false} NextPlays(cfg: Config, s: State, t: nat, script: seq<Attempt<Payload>>, budget: nat,
                                     garbage: Payload, first: seq<Step>, paused: State)
      returns (steps: seq<Step>, s': State)
    requires Inv(cfg, s) && t in s.threads && s.threads[t].Acquiring?
    requires |script| >= budget > 1 && budget == cfg.maxRetries + 1 - s.threads[t].attempt
    requires (forall a | a in script :: Playable(cfg, a)) && IsGarbage(cfg, garbage)
    requires CanRun(cfg, s, first) && paused == Run(cfg, s, first) && Happens(script[0], s.pool != []).Faulted?
    requires AttemptEnds(cfg, s, paused, t, s.threads[t].request, s.threads[t].attempt,
                         Happens(script[0], s.pool != []))
    requires paused.pool == Left(s.pool, 1)
    ensures CanRun(cfg, s, steps) && s' == Run(cfg, s, steps)
    ensures RestEnds(cfg, s, s', t, s.threads[t].request, script, budget)
    decreases |script|, 0
  {
    var Acquiring(request, attempt) := s.threads[t];
    RunKeepsInv(cfg, s, first);
    WakesUp(cfg, s, paused, t, request, attempt, Happens(script[0], s.pool != []));
    var awake := Apply(cfg, paused, Wake(t));
    var rest;
    rest, s' := RestPlays(cfg, awake, t, script[1..], budget - 1, garbage);
    GoesOn(cfg, s, first, Wake(t), rest);
    RestEndsLater(cfg, s, awake, s', t, request, script, budget);
    steps := first + ([Wake(t)] + rest);
  }

  /** A call that nothing interrupts, of a thread that is idle, ends as the verdict on its script says: with the
      reply it says, or with the exception; and with the pool that the client object is left with. */
  lemma CallAloneIsVerdict(cfg: Config, s: State, t: nat, request: Payload, script: seq<Attempt<Payload>>,
                           garbage: Payload) returns (steps: seq<Step>, s': State)
    requires Inv(cfg, s) && t !in s.threads && IsPayload(request) && |script| >= cfg.maxRetries
    requires (forall a | a in script :: Playable(cfg, a)) && IsGarbage(cfg, garbage)
    ensures CanRun(cfg, s, steps) && s' == Run(cfg, s, steps)
    ensures cfg.maxRetries <= 0 ==>
              EndsLike(s, s', t, request, Failure(EnclaveCommunicationError)) && s'.pool == s.pool
    ensures cfg.maxRetries > 0 ==>
              var v := Verdict(script, |s.pool|, cfg.maxRetries);
              && EndsLike(s, s', t, request, v.1)
              && PoolAfterCall(s.pool, v.0, v.1.Success?, cfg.maxPoolSize, s'.pool)
  {
    var start := Start(t, request);
    var s1 := Apply(cfg, s, start);
    StepKeepsInv(cfg, s, start);
    assert s.threads - {t} == s.threads;
    if cfg.maxRetries <= 0 {
      RunOne(cfg, s, start);
      steps, s' := [start], s1;
    } else {
      var rest;
      rest, s' := RestPlays(cfg, s1, t, script, cfg.maxRetries, garbage);
      RunFirst(cfg, s, start, rest);
      steps := [start] + rest;
      EndsAlike(s, s1, s', t, request, script, |s.pool|, cfg.maxRetries);
    }
  }
}
