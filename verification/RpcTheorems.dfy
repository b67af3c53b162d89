/** Whole runs of the RPC protocol: replies go to the requests they answer, and no connection is lost. */
module RpcTheorems {
  import opened Bytes
  import opened Results
  import opened Frames
  import opened RpcProtocol
  import opened RpcConnections

  // ----- the invariant -----

  predicate Holds(th: Thread) {
    th.Sending? || th.Receiving? || th.Releasing?
  }

  predicate HeldBy(s: State, t: nat, c: nat) {
    t in s.threads && Holds(s.threads[t]) && s.threads[t].conn == c
  }

  /** A thread sleeps only when it has an attempt left. */
  predicate WithinBudget(cfg: Config, th: Thread) {
    IsPayload(th.request) && 1 <= th.attempt <= cfg.maxRetries && (th.Sleeping? ==> th.attempt < cfg.maxRetries)
  }

  /** The connection a thread holds is open, not pooled, and where the thread thinks it is. */
  ghost predicate ThreadOk(cfg: Config, s: State, th: Thread) {
    && WithinBudget(cfg, th)
    && (Holds(th) ==>
          && th.conn < |s.conns| && th.conn !in s.closed && th.conn !in s.pool
          && var c := s.conns[th.conn];
             match th
             case Sending(request, _, _, base, sent) => MidSend(c, request, base, sent)
             case Receiving(request, _, _, base, buffer) =>
               (Unanswered(c, request, base) && buffer == []) || MidReply(c, request, base, buffer)
             case Releasing(request, _, _, base, reply) => Done(c, request, base, reply)
             case _ => true)
  }

  ghost predicate ThreadsOk(cfg: Config, s: State) {
    forall t | t in s.threads :: ThreadOk(cfg, s, s.threads[t])
  }

  /** No two threads share a connection. */
  ghost predicate Exclusive(s: State) {
    forall t, t', c :: HeldBy(s, t, c) && HeldBy(s, t', c) ==> t == t'
  }

  ghost predicate PoolOk(cfg: Config, s: State) {
    && (s.pool == [] || |s.pool| <= cfg.maxPoolSize)
    && (forall i, j | 0 <= i < j < |s.pool| :: s.pool[i] != s.pool[j])
    && (forall c | c in s.pool :: c < |s.conns| && c !in s.closed && AtRest(s.conns[c]))
  }

  /** Every connection ever opened is closed, pooled or held. */
  ghost predicate Accounted(s: State, c: nat) {
    c in s.closed || c in s.pool || exists t :: HeldBy(s, t, c)
  }

  ghost predicate NoneLost(s: State) {
    (forall c: nat | c < |s.conns| :: Accounted(s, c)) && (forall c | c in s.closed :: c < |s.conns|)
  }

  /** A returned reply is the one the server wrote on that connection for that very request; and a thread that holds
      the connection now started after it. */
  ghost predicate OutcomeOk(s: State, o: Outcome) {
    o.Returned? ==>
      && o.conn < |s.conns| && o.index < |s.conns[o.conn].log|
      && s.conns[o.conn].log[o.index] == Exchange(o.request, o.reply)
      && forall t :: HeldBy(s, t, o.conn) ==> o.index < s.threads[t].base
  }

  /** No exchange answers two calls. */
  ghost predicate OutcomesOk(s: State) {
    && (forall i | 0 <= i < |s.outcomes| :: OutcomeOk(s, s.outcomes[i]))
    && (forall i, j | 0 <= i < j < |s.outcomes| && s.outcomes[i].Returned? && s.outcomes[j].Returned? ::
          (s.outcomes[i].conn, s.outcomes[i].index) != (s.outcomes[j].conn, s.outcomes[j].index))
  }

  ghost predicate Inv(cfg: Config, s: State) {
    ThreadsOk(cfg, s) && Exclusive(s) && PoolOk(cfg, s) && NoneLost(s) && OutcomesOk(s)
  }

  // ----- steps that leave connections alone -----

  /** A thread that holds nothing moves on to another such state, or ends with an exception. */
  lemma IdleMoves(cfg: Config, s: State, t: nat, threads: map<nat, Thread>, outcomes: seq<Outcome>)
    requires Inv(cfg, s) && (t in s.threads ==> !Holds(s.threads[t]))
    requires forall u | u != t :: (u in threads <==> u in s.threads) && (u in threads ==> threads[u] == s.threads[u])
    requires t in threads ==> !Holds(threads[t]) && WithinBudget(cfg, threads[t])
    requires outcomes == s.outcomes || (|outcomes| == |s.outcomes| + 1 && outcomes[..|s.outcomes|] == s.outcomes
            && outcomes[|s.outcomes|].Raised?)
    ensures Inv(cfg, s.(threads := threads, outcomes := outcomes))
  {
    var s' := s.(threads := threads, outcomes := outcomes);
    assert forall u, c :: HeldBy(s', u, c) <==> HeldBy(s, u, c);
    forall u | u in threads ensures ThreadOk(cfg, s', threads[u]) {
      if u != t { assert ThreadOk(cfg, s, s.threads[u]); }
    }
    forall c: nat | c < |s.conns| ensures Accounted(s', c) {
      assert Accounted(s, c);
    }
    forall i | 0 <= i < |outcomes| ensures OutcomeOk(s', outcomes[i]) {
      if i < |s.outcomes| { assert outcomes[i] == s.outcomes[i] && OutcomeOk(s, s.outcomes[i]); }
    }
    forall i, j | 0 <= i < j < |outcomes| && outcomes[i].Returned? && outcomes[j].Returned?
      ensures (outcomes[i].conn, outcomes[i].index) != (outcomes[j].conn, outcomes[j].index)
    {
      assert outcomes[i] == s.outcomes[i] && outcomes[j] == s.outcomes[j];
    }
  }

  // ----- a thread gets a connection -----

  lemma PoolTop(cfg: Config, s: State)
    requires PoolOk(cfg, s) && s.pool != []
    ensures var n := |s.pool| - 1;
            && s.pool[n] !in s.pool[..n]
            && forall x :: x in s.pool <==> x in s.pool[..n] || x == s.pool[n]
  {
    assert s.pool == s.pool[..|s.pool| - 1] + [s.pool[|s.pool| - 1]];
  }

  lemma TakePooledKeepsInv(cfg: Config, s: State, t: nat)
    requires Inv(cfg, s) && Enabled(cfg, s, TakePooled(t))
    ensures Inv(cfg, Apply(cfg, s, TakePooled(t)))
  {
    var s' := Apply(cfg, s, TakePooled(t));
    var c := s.pool[|s.pool| - 1];
    assert c in s.pool && ThreadOk(cfg, s, s.threads[t]);
    PoolTop(cfg, s);
    StartSending(s.conns[c], s.threads[t].request);
    assert forall u, d | u != t :: HeldBy(s', u, d) <==> HeldBy(s, u, d);
    forall u ensures !HeldBy(s, u, c) {
      if u in s.threads { assert ThreadOk(cfg, s, s.threads[u]); }
    }
    forall u | u in s'.threads ensures ThreadOk(cfg, s', s'.threads[u]) {
      if u != t { assert ThreadOk(cfg, s, s.threads[u]); }
    }
    TakenIsAccounted(cfg, s, t);
    forall i | 0 <= i < |s.outcomes| ensures OutcomeOk(s', s.outcomes[i]) {
      assert OutcomeOk(s, s.outcomes[i]);
    }
  }

  lemma TakenIsAccounted(cfg: Config, s: State, t: nat)
    requires Inv(cfg, s) && Enabled(cfg, s, TakePooled(t))
    ensures NoneLost(Apply(cfg, s, TakePooled(t)))
  {
    var s' := Apply(cfg, s, TakePooled(t));
    PoolTop(cfg, s);
    assert HeldBy(s', t, s.pool[|s.pool| - 1]);
    forall d: nat | d < |s.conns| ensures Accounted(s', d) {
      assert Accounted(s, d);
      if exists u :: HeldBy(s, u, d) {
        var u :| HeldBy(s, u, d);
        assert HeldBy(s', u, d);
      }
    }
  }

  lemma ConnectKeepsInv(cfg: Config, s: State, t: nat)
    requires Inv(cfg, s) && Enabled(cfg, s, Connect(t))
    ensures Inv(cfg, Apply(cfg, s, Connect(t)))
  {
    var s' := Apply(cfg, s, Connect(t));
    var c := |s.conns|;
    assert ThreadOk(cfg, s, s.threads[t]);
    FreshConnAtRest();
    StartSending(s'.conns[c], s.threads[t].request);
    assert forall d: nat | d < |s.conns| :: s'.conns[d] == s.conns[d];
    assert forall u, d | u != t :: HeldBy(s', u, d) <==> HeldBy(s, u, d);
    forall u | u in s'.threads ensures ThreadOk(cfg, s', s'.threads[u]) {
      if u != t { assert ThreadOk(cfg, s, s.threads[u]); }
    }
    forall u ensures !HeldBy(s, u, c) {
      if u in s.threads { assert ThreadOk(cfg, s, s.threads[u]); }
    }
    forall d: nat | d < |s'.conns| ensures Accounted(s', d) {
      if d == c {
        assert HeldBy(s', t, d);
      } else {
        assert Accounted(s, d);
        if exists u :: HeldBy(s, u, d) {
          var u :| HeldBy(s, u, d);
          assert HeldBy(s', u, d);
        }
      }
    }
    forall i | 0 <= i < |s.outcomes| ensures OutcomeOk(s', s.outcomes[i]) {
      assert OutcomeOk(s, s.outcomes[i]);
    }
  }

  // ----- a held connection moves on -----

  /** Only connection `c` changes, its log only grows, and only its holder `t`, if any, changes with it. */
  lemma HeldMoves(cfg: Config, s: State, c: nat, conn: Conn, t: nat, th: Thread)
    requires Inv(cfg, s) && HeldBy(s, t, c) && c < |s.conns|
    requires Holds(th) && th.conn == c && th.base == s.threads[t].base && s.conns[c].log <= conn.log
    requires ThreadOk(cfg, s.(conns := s.conns[c := conn]), th)
    ensures Inv(cfg, s.(conns := s.conns[c := conn], threads := s.threads[t := th]))
  {
    var s' := s.(conns := s.conns[c := conn], threads := s.threads[t := th]);
    assert ThreadOk(cfg, s, s.threads[t]);
    assert forall u, d :: HeldBy(s', u, d) <==> HeldBy(s, u, d);
    forall u | u in s'.threads ensures ThreadOk(cfg, s', s'.threads[u]) {
      if u != t {
        assert ThreadOk(cfg, s, s.threads[u]);
        if Holds(s.threads[u]) { assert HeldBy(s, u, s.threads[u].conn); }
      }
    }
    forall d: nat | d < |s'.conns| ensures Accounted(s', d) {
      assert Accounted(s, d);
    }
    forall i | 0 <= i < |s.outcomes| ensures OutcomeOk(s', s.outcomes[i]) {
      assert OutcomeOk(s, s.outcomes[i]);
    }
  }

  lemma SendKeepsInv(cfg: Config, s: State, t: nat, count: nat)
    requires Inv(cfg, s) && Enabled(cfg, s, Send(t, count))
    ensures Inv(cfg, Apply(cfg, s, Send(t, count)))
  {
    var Sending(request, attempt, c, base, sent) := s.threads[t];
    assert ThreadOk(cfg, s, s.threads[t]) && HeldBy(s, t, c);
    SendMore(s.conns[c], request, base, sent, count);
    var s' := Apply(cfg, s, Send(t, count));
    HeldMoves(cfg, s, c, s'.conns[c], t, s'.threads[t]);
  }

  /** The server can read a request only from the connection of a thread that waits for its reply; closed ones aside. */
  lemma ServeKeepsInv(cfg: Config, s: State, c: nat, reply: seq<byte>)
    requires Inv(cfg, s) && Enabled(cfg, s, Serve(c, reply))
    ensures Inv(cfg, Apply(cfg, s, Serve(c, reply)))
  {
    var s' := Apply(cfg, s, Serve(c, reply));
    assert Accounted(s, c);
    if c in s.closed {
      ClosedChanges(cfg, s, c, s'.conns[c]);
    } else {
      if c in s.pool { NothingToServe(s.conns[c], [], 0, 0); }
      var t :| HeldBy(s, t, c);
      var th := s.threads[t];
      assert ThreadOk(cfg, s, th);
      if !th.Receiving? { NothingToServe(s.conns[c], th.request, th.base, if th.Sending? then th.sent else 0); }
      ServeWaiting(s.conns[c], th.request, th.base, th.buffer, reply);
      HeldMoves(cfg, s, c, s'.conns[c], t, th);
      assert s.threads[t := th] == s.threads;
    }
  }

  lemma ServeWaiting(c: Conn, request: seq<byte>, base: nat, buffer: seq<byte>, reply: seq<byte>)
    requires (Unanswered(c, request, base) && buffer == []) || MidReply(c, request, base, buffer)
    requires FirstPayload(c.toServer[c.serverRead..]).Some? && |reply| < TWO_TO_32
    ensures MidReply(ServeOne(c, reply), request, base, buffer)
  {
    if Unanswered(c, request, base) {
      ServeUnanswered(c, request, base, reply);
    }
  }

  /** What happens to a closed connection concerns nobody, as long as its log only grows. */
  lemma ClosedChanges(cfg: Config, s: State, c: nat, conn: Conn)
    requires Inv(cfg, s) && c in s.closed && c < |s.conns| && s.conns[c].log <= conn.log
    ensures Inv(cfg, s.(conns := s.conns[c := conn]))
  {
    var s' := s.(conns := s.conns[c := conn]);
    assert forall u, d :: HeldBy(s', u, d) <==> HeldBy(s, u, d);
    forall u | u in s.threads ensures ThreadOk(cfg, s', s.threads[u]) {
      assert ThreadOk(cfg, s, s.threads[u]);
    }
    forall d: nat | d < |s'.conns| ensures Accounted(s', d) {
      assert Accounted(s, d);
    }
    forall i | 0 <= i < |s.outcomes| ensures OutcomeOk(s', s.outcomes[i]) {
      assert OutcomeOk(s, s.outcomes[i]);
    }
  }

  // ----- a thread lets go of its connection -----

  /** The holder of `c` goes; `c` is closed, or pooled at rest; and the call ends, sleeps, or goes on without it. */
  lemma LetGo(cfg: Config, s: State, t: nat, threads: map<nat, Thread>, pool: seq<nat>, closed: set<nat>,
              outcomes: seq<Outcome>)
    requires Inv(cfg, s) && t in s.threads && Holds(s.threads[t])
    requires forall u | u != t :: (u in threads <==> u in s.threads) && (u in threads ==> threads[u] == s.threads[u])
    requires t in threads ==> !Holds(threads[t]) && WithinBudget(cfg, threads[t])
    requires var c := s.threads[t].conn;
             || (pool == s.pool && closed == s.closed + {c})
             || (pool == s.pool + [c] && closed == s.closed && |pool| <= cfg.maxPoolSize && c < |s.conns|
                && AtRest(s.conns[c]))
    requires || outcomes == s.outcomes
             || (|outcomes| == |s.outcomes| + 1 && outcomes[..|s.outcomes|] == s.outcomes
                && EndOk(s, t, outcomes[|s.outcomes|]))
    ensures Inv(cfg, s.(threads := threads, pool := pool, closed := closed, outcomes := outcomes))
  {
    var s' := s.(threads := threads, pool := pool, closed := closed, outcomes := outcomes);
    var c := s.threads[t].conn;
    assert ThreadOk(cfg, s, s.threads[t]) && HeldBy(s, t, c);
    assert forall u, d :: HeldBy(s', u, d) <==> u != t && HeldBy(s, u, d);
    LetGoThreads(cfg, s, t, s');
    assert c < |s.conns| && c !in s.pool;
    assert forall x | x in pool :: x in s.pool || x == c;
    forall d: nat | d < |s.conns| ensures Accounted(s', d) {
      assert Accounted(s, d);
      if d == c {
        if pool != s.pool { assert pool[|s.pool|] == c; }
      } else if exists u :: HeldBy(s, u, d) {
        var u :| HeldBy(s, u, d);
        assert HeldBy(s', u, d);
      } else if d in s.pool {
        var i :| 0 <= i < |s.pool| && s.pool[i] == d;
        assert pool[i] == d;
      }
    }
    LetGoOutcomes(cfg, s, t, s');
  }

  /** How a call that held its connection may end: with an exception, or with the reply it has just read. */
  ghost predicate EndOk(s: State, t: nat, o: Outcome)
    requires t in s.threads
  {
    var th := s.threads[t];
    o.Raised? || (th.Releasing? && o == Returned(th.request, th.reply, th.conn, th.base))
  }

  lemma LetGoThreads(cfg: Config, s: State, t: nat, s': State)
    requires Inv(cfg, s) && t in s.threads && Holds(s.threads[t]) && s'.conns == s.conns
    requires forall u, d :: HeldBy(s', u, d) <==> u != t && HeldBy(s, u, d)
    requires forall u | u in s'.threads && u != t :: u in s.threads && s'.threads[u] == s.threads[u]
    requires t in s'.threads ==> ThreadOk(cfg, s', s'.threads[t])
    requires forall x | x in s'.pool :: x in s.pool || x == s.threads[t].conn
    requires forall x | x in s'.closed :: x in s.closed || x == s.threads[t].conn
    ensures ThreadsOk(cfg, s') && Exclusive(s')
  {
    forall u | u in s'.threads ensures ThreadOk(cfg, s', s'.threads[u]) {
      if u != t {
        assert ThreadOk(cfg, s, s.threads[u]);
        if Holds(s.threads[u]) {
          assert HeldBy(s, u, s.threads[u].conn) && HeldBy(s, t, s.threads[t].conn);
          assert s.threads[u].conn != s.threads[t].conn;
        }
      }
    }
  }

  lemma LetGoOutcomes(cfg: Config, s: State, t: nat, s': State)
    requires Inv(cfg, s) && t in s.threads && Holds(s.threads[t]) && s'.conns == s.conns
    requires forall u, d :: HeldBy(s', u, d) <==> u != t && HeldBy(s, u, d)
    requires forall u | u in s'.threads && u != t :: u in s.threads && s'.threads[u] == s.threads[u]
    requires || s'.outcomes == s.outcomes
             || (|s'.outcomes| == |s.outcomes| + 1 && s'.outcomes[..|s.outcomes|] == s.outcomes
                && EndOk(s, t, s'.outcomes[|s.outcomes|]))
    ensures OutcomesOk(s')
  {
    var n := |s.outcomes|;
    assert ThreadOk(cfg, s, s.threads[t]) && HeldBy(s, t, s.threads[t].conn);
    assert forall i | 0 <= i < n :: s'.outcomes[i] == s.outcomes[i];
    forall i | 0 <= i < |s'.outcomes| ensures OutcomeOk(s', s'.outcomes[i]) {
      if i < n {
        assert OutcomeOk(s, s.outcomes[i]);
      } else if s'.outcomes[i].Returned? {
        assert forall u :: !HeldBy(s', u, s.threads[t].conn);
      }
    }
    forall i, j | 0 <= i < j < |s'.outcomes| && s'.outcomes[i].Returned? && s'.outcomes[j].Returned?
      ensures (s'.outcomes[i].conn, s'.outcomes[i].index) != (s'.outcomes[j].conn, s'.outcomes[j].index)
    {
      assert OutcomeOk(s, s.outcomes[i]);
    }
  }

  /** The connection of a thread that reads, after the next chunk. */
  lemma ReadStep(cfg: Config, s: State, th: Thread, count: nat)
    requires th.Receiving? && ThreadOk(cfg, s, th) && 0 < count <= Wanted(th.buffer)
    requires s.conns[th.conn].clientRead + count <= |s.conns[th.conn].fromServer|
    ensures var c := s.conns[th.conn];
            var c', buffer := c.(clientRead := c.clientRead + count),
                th.buffer + c.fromServer[c.clientRead..c.clientRead + count];
            if Wanted(buffer) > 0 then MidReply(c', th.request, th.base, buffer)
            else |buffer| >= 4 && Done(c', th.request, th.base, buffer[4..])
  {
    ReadsItsReply(s.conns[th.conn], th.request, th.base, th.buffer, count);
    ReceiveMore(s.conns[th.conn], th.request, th.base, th.buffer, count);
  }

  lemma ReceiveKeepsInv(cfg: Config, s: State, t: nat, count: nat)
    requires Inv(cfg, s) && Enabled(cfg, s, Receive(t, count))
    ensures Inv(cfg, DoReceive(cfg, s, t, count))
  {
    var th := s.threads[t];
    assert ThreadOk(cfg, s, th);
    ReadStep(cfg, s, th, count);
    var c := s.conns[th.conn];
    var conn := c.(clientRead := c.clientRead + count);
    var buffer := th.buffer + c.fromServer[c.clientRead..c.clientRead + count];
    if Wanted(buffer) > 0 {
      ReadOn(cfg, s, t, conn, buffer);
    } else {
      ReadToTheEnd(cfg, s, t, conn, buffer);
    }
    SameState(cfg, AfterBytes(cfg, s.(conns := s.conns[th.conn := conn]), t, th, buffer), DoReceive(cfg, s, t, count));
  }

  lemma SameState(cfg: Config, s: State, s': State)
    requires s == s' && Inv(cfg, s)
    ensures Inv(cfg, s')
  {
  }

  lemma ReadOn(cfg: Config, s: State, t: nat, conn: Conn, buffer: seq<byte>)
    requires Inv(cfg, s) && t in s.threads && s.threads[t].Receiving? && s.threads[t].conn < |s.conns|
    requires s.conns[s.threads[t].conn].log <= conn.log && Wanted(buffer) > 0
    requires MidReply(conn, s.threads[t].request, s.threads[t].base, buffer)
    ensures var th := s.threads[t]; Inv(cfg, AfterBytes(cfg, s.(conns := s.conns[th.conn := conn]), t, th, buffer))
  {
    var th := s.threads[t];
    assert ThreadOk(cfg, s, th) && HeldBy(s, t, th.conn);
    HeldMoves(cfg, s, th.conn, conn, t, th.(buffer := buffer));
  }

  lemma ReadToTheEnd(cfg: Config, s: State, t: nat, conn: Conn, buffer: seq<byte>)
    requires Inv(cfg, s) && t in s.threads && s.threads[t].Receiving? && s.threads[t].conn < |s.conns|
    requires s.conns[s.threads[t].conn].log <= conn.log && |buffer| >= 4 && Wanted(buffer) <= 0
    requires Done(conn, s.threads[t].request, s.threads[t].base, buffer[4..])
    ensures var th := s.threads[t]; Inv(cfg, AfterBytes(cfg, s.(conns := s.conns[th.conn := conn]), t, th, buffer))
  {
    var Receiving(request, attempt, c, base, _) := s.threads[t];
    assert ThreadOk(cfg, s, s.threads[t]) && HeldBy(s, t, c);
    var done := Releasing(request, attempt, c, base, buffer[4..]);
    HeldMoves(cfg, s, c, conn, t, done);
    if !(|buffer| > 4 && cfg.parses(buffer[4..])) {
      RejectKeepsInv(cfg, s.(conns := s.conns[c := conn], threads := s.threads[t := done]), t);
      assert s.threads[t := done] - {t} == s.threads - {t};
    }
  }

  /** A reply that does not parse costs the call its connection. */
  lemma RejectKeepsInv(cfg: Config, s: State, t: nat)
    requires Inv(cfg, s) && t in s.threads && Holds(s.threads[t])
    ensures Inv(cfg, s.(threads := s.threads - {t}, closed := s.closed + {s.threads[t].conn},
                        outcomes := s.outcomes + [Raised(s.threads[t].request, MalformedReply)]))
  {
    LetGo(cfg, s, t, s.threads - {t}, s.pool, s.closed + {s.threads[t].conn},
        s.outcomes + [Raised(s.threads[t].request, MalformedReply)]);
  }

  lemma FaultKeepsInv(cfg: Config, s: State, t: nat, timeout: bool)
    requires Inv(cfg, s) && Enabled(cfg, s, Fault(t, timeout))
    ensures Inv(cfg, Apply(cfg, s, Fault(t, timeout)))
  {
    var th := s.threads[t];
    assert ThreadOk(cfg, s, th);
    var closed := s.closed + {th.conn};
    if th.attempt >= cfg.maxRetries {
      LetGo(cfg, s, t, s.threads - {t}, s.pool, closed, s.outcomes + [Raised(th.request, Kind(timeout))]);
    } else {
      LetGo(cfg, s, t, s.threads[t := Sleeping(th.request, th.attempt)], s.pool, closed, s.outcomes);
    }
  }

  lemma ReleaseKeepsInv(cfg: Config, s: State, t: nat)
    requires Inv(cfg, s) && Enabled(cfg, s, Release(t))
    ensures Inv(cfg, Apply(cfg, s, Release(t)))
  {
    var Releasing(request, attempt, c, base, reply) := s.threads[t];
    assert ThreadOk(cfg, s, s.threads[t]);
    var outcomes := s.outcomes + [Returned(request, reply, c, base)];
    if |s.pool| >= cfg.maxPoolSize {
      LetGo(cfg, s, t, s.threads - {t}, s.pool, s.closed + {c}, outcomes);
    } else {
      LetGo(cfg, s, t, s.threads - {t}, s.pool + [c], s.closed, outcomes);
    }
  }

  lemma StepKeepsInv(cfg: Config, s: State, step: Step)
    requires Inv(cfg, s) && Enabled(cfg, s, step)
    ensures Inv(cfg, Apply(cfg, s, step))
  {
    var s' := Apply(cfg, s, step);
    match step
    case Start(t, _) => IdleMoves(cfg, s, t, s'.threads, s'.outcomes);
    case TakePooled(t) => TakePooledKeepsInv(cfg, s, t);
    case FindPoolEmpty(t) => assert ThreadOk(cfg, s, s.threads[t]); IdleMoves(cfg, s, t, s'.threads, s'.outcomes);
    case Connect(t) => ConnectKeepsInv(cfg, s, t);
    case RefuseConnection(t, _) => assert ThreadOk(cfg, s, s.threads[t]); IdleMoves(cfg, s, t, s'.threads, s'.outcomes);
    case Send(t, count) => SendKeepsInv(cfg, s, t, count);
    case Serve(c, reply) => ServeKeepsInv(cfg, s, c, reply);
    case Receive(t, count) => ReceiveKeepsInv(cfg, s, t, count);
    case Fault(t, timeout) => FaultKeepsInv(cfg, s, t, timeout);
    case Wake(t) => assert ThreadOk(cfg, s, s.threads[t]); IdleMoves(cfg, s, t, s'.threads, s'.outcomes);
    case Release(t) => ReleaseKeepsInv(cfg, s, t);
    case AfterClose(c, after) => ClosedChanges(cfg, s, c, after);
  }

  lemma {:induction false} RunKeepsInv(cfg: Config, s: State, steps: seq<Step>)
    requires Inv(cfg, s) && CanRun(cfg, s, steps)
    ensures Inv(cfg, Run(cfg, s, steps))
    decreases |steps|
  {
    if steps != [] {
      StepKeepsInv(cfg, s, steps[0]);
      RunKeepsInv(cfg, Apply(cfg, s, steps[0]), steps[1..]);
    }
  }

  // ----- the promises -----

  /** Reply matching: in every run, a returned reply is what the server wrote in answer to that very request, on the
      connection the call used; and no reply is returned twice. */
  lemma RepliesMatchRequests(cfg: Config, steps: seq<Step>)
    requires CanRun(cfg, Init(), steps)
    ensures var s := Run(cfg, Init(), steps);
            forall i | 0 <= i < |s.outcomes| && s.outcomes[i].Returned? ::
              && s.outcomes[i].conn < |s.conns| && s.outcomes[i].index < |s.conns[s.outcomes[i].conn].log|
              && s.conns[s.outcomes[i].conn].log[s.outcomes[i].index]
                 == Exchange(s.outcomes[i].request, s.outcomes[i].reply)
    ensures var s := Run(cfg, Init(), steps);
            forall i, j | 0 <= i < j < |s.outcomes| && s.outcomes[i].Returned? && s.outcomes[j].Returned? ::
              (s.outcomes[i].conn, s.outcomes[i].index) != (s.outcomes[j].conn, s.outcomes[j].index)
  {
    RunKeepsInv(cfg, Init(), steps);
    var s := Run(cfg, Init(), steps);
    assert forall i | 0 <= i < |s.outcomes| :: OutcomeOk(s, s.outcomes[i]);
  }

  /** A pooled connection is always at a frame boundary in both directions, with every request on it answered and
      every reply read. */
  lemma PooledConnectionsAreAtRest(cfg: Config, steps: seq<Step>)
    requires CanRun(cfg, Init(), steps)
    ensures var s := Run(cfg, Init(), steps);
            forall c | c in s.pool :: c < |s.conns| && AtRest(s.conns[c])
  {
    RunKeepsInv(cfg, Init(), steps);
  }

  /** Conservation: every connection ever opened is in exactly one of the pool, the closed ones, and the hands of one
      thread; the pool keeps its limit; and no thread makes more attempts than allowed. */
  lemma ConnectionsAreConserved(cfg: Config, steps: seq<Step>)
    requires CanRun(cfg, Init(), steps)
    ensures var s := Run(cfg, Init(), steps);
            && (forall c: nat | c < |s.conns| :: Accounted(s, c))
            && (forall c | c in s.pool :: c !in s.closed && forall t :: !HeldBy(s, t, c))
            && (forall t, c :: HeldBy(s, t, c) ==> c !in s.closed && forall t' :: HeldBy(s, t', c) ==> t' == t)
            && (forall i, j | 0 <= i < j < |s.pool| :: s.pool[i] != s.pool[j])
            && (s.pool == [] || |s.pool| <= cfg.maxPoolSize)
            && (forall t | t in s.threads :: 1 <= s.threads[t].attempt <= cfg.maxRetries)
  {
    RunKeepsInv(cfg, Init(), steps);
    var s := Run(cfg, Init(), steps);
    assert forall t | t in s.threads :: ThreadOk(cfg, s, s.threads[t]);
  }
}
