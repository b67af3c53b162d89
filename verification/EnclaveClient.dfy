/** The host's RPC client: its connection pool and its retry loop, for one call without interference. */
module EnclaveClient {
  import opened Results
  import opened Frames

  /** What the environment does in one attempt: to `connect`, should the pool be empty, and to the exchange of request
      and reply. */
  datatype ConnectResult = Connects | Refuses(fault: IoError) | NoVsock
  datatype ExchangeResult<+R> = Replies(reply: R) | Garbled | Fails(fault: IoError)
  datatype Attempt<+R> = Attempt(connect: ConnectResult, exchange: ExchangeResult<R>)

  /** What an attempt amounts to, given whether the pool can supply its connection. */
  datatype Happening<+R> = Answered(reply: R) | Undecodable | Faulted(fault: IoError) | Unsupported

  function Happens<R>(a: Attempt<R>, pooled: bool): Happening<R> {
    if !pooled && a.connect.NoVsock? then Unsupported
    else if !pooled && a.connect.Refuses? then Faulted(a.connect.fault)
    else
      match a.exchange
      case Replies(reply) => Answered(reply)
      case Garbled => Undecodable
      case Fails(fault) => Faulted(fault)
  }

  datatype ClientError = EnclaveTimeoutError | EnclaveCommunicationError | MalformedEnclaveResponseError

  /** The exception of an exhausted retry loop: its kind is that of the last fault. */
  function Exhausted(fault: IoError): ClientError {
    if fault == TimeoutError then EnclaveTimeoutError else EnclaveCommunicationError
  }

  /** What an attempt that ends a call makes of it. */
  function Ended<R>(h: Happening<R>): Result<R, ClientError> {
    match h
    case Answered(reply) => Success(reply)
    case Undecodable => Failure(MalformedEnclaveResponseError)
    case Unsupported => Failure(EnclaveCommunicationError)
    case Faulted(fault) => Failure(Exhausted(fault))
  }

  /** How many of the next `budget` attempts are made, and what comes of them: the first one that is not a fault
      decides, and failing that the last fault. `pooled` connections can still come from the pool. */
  function Verdict<R>(script: seq<Attempt<R>>, pooled: nat, budget: nat): (v: (nat, Result<R, ClientError>))
    requires |script| >= budget > 0
    ensures 1 <= v.0 <= budget
    decreases budget
  {
    match Happens(script[0], pooled > 0)
    case Answered(reply) => (1, Success(reply))
    case Undecodable => (1, Failure(MalformedEnclaveResponseError))
    case Unsupported => (1, Failure(EnclaveCommunicationError))
    case Faulted(fault) =>
      if budget == 1 then (1, Failure(Exhausted(fault)))
      else
        var (n, r) := Verdict(script[1..], if pooled > 0 then pooled - 1 else 0, budget - 1);
        (n + 1, r)
  }

  /** The pause after failed attempt number `attempt`, in tenths of a second: 1, 2, 4, 8, then 10. */
  function Pause(attempt: nat): nat
    requires attempt >= 1
  {
    if attempt <= 4 then Power2(attempt - 1) else 10
  }

  function Power2(n: nat): nat {
    if n == 0 then 1 else 2 * Power2(n - 1)
  }

  /** The pauses of a call that makes `attempts` attempts. */
  function Pauses(attempts: nat): (ps: seq<nat>)
    ensures |ps| == if attempts == 0 then 0 else attempts - 1
  {
    if attempts <= 1 then [] else Pauses(attempts - 1) + [Pause(attempts - 1)]
  }

  lemma OneMorePause(before: seq<nat>, attempt: nat)
    requires attempt >= 1
    ensures before + Pauses(attempt) + [Pause(attempt)] == before + Pauses(attempt + 1)
  {
  }

  lemma NoPauses(before: seq<nat>)
    ensures before + Pauses(1) == before
  {
  }

  function Sum(ps: seq<nat>): nat {
    if ps == [] then 0 else Sum(ps[..|ps| - 1]) + ps[|ps| - 1]
  }

  /** Total backoff: 2^(m-1) - 1 tenths of a second for up to five attempts, and one more second for every further
      one. */
  lemma {:induction false} TotalBackoff(attempts: nat)
    requires attempts >= 1
    ensures attempts <= 5 ==> Sum(Pauses(attempts)) == Power2(attempts - 1) - 1
    ensures attempts >= 5 ==> Sum(Pauses(attempts)) == 15 + 10 * (attempts - 5)
  {
    if attempts > 1 {
      TotalBackoff(attempts - 1);
      assert Pauses(attempts)[..|Pauses(attempts)| - 1] == Pauses(attempts - 1);
      assert Power2(4) == 16 by { assert Power2(2) == 4; }
    }
  }

  /** A call's outcome depends on nothing but the attempts it makes. */
  lemma {:induction false} VerdictIsLocal<R>(script: seq<Attempt<R>>, script': seq<Attempt<R>>, pooled: nat,
                                             budget: nat)
    requires |script| >= budget > 0 && |script'| >= budget
    requires script'[..Verdict(script, pooled, budget).0] == script[..Verdict(script, pooled, budget).0]
    ensures Verdict(script', pooled, budget) == Verdict(script, pooled, budget)
    decreases budget
  {
    var n := Verdict(script, pooled, budget).0;
    assert script'[..n][0] == script'[0] && script[..n][0] == script[0];
    if n > 1 {
      assert script[..n][1..] == script[1..][..n - 1];
      assert script'[..n][1..] == script'[1..][..n - 1];
      VerdictIsLocal(script[1..], script'[1..], if pooled > 0 then pooled - 1 else 0, budget - 1);
    }
  }

  /** The attempt has a connection: from the pool, or a new one. */
  predicate Connected<R>(a: Attempt<R>, pooled: bool) {
    pooled || a.connect.Connects?
  }

  /** The attempt meets this fault, while connecting or in the exchange. */
  predicate Meets<R>(a: Attempt<R>, pooled: bool, fault: IoError) {
    (!pooled && a.connect == Refuses(fault)) || (Connected(a, pooled) && a.exchange.Fails? && a.exchange.fault == fault)
  }

  /** It meets a timeout or a connection error. */
  predicate MeetsFault<R>(a: Attempt<R>, pooled: bool) {
    Meets(a, pooled, TimeoutError) || Meets(a, pooled, ConnectionError)
  }

  /** Without vsock there is nothing to connect to. */
  predicate LacksVsock<R>(a: Attempt<R>, pooled: bool) {
    !pooled && a.connect == NoVsock
  }

  /** What an attempt amounts to, exactly. */
  lemma HappensExactly<R>(a: Attempt<R>, pooled: bool)
    ensures var h := Happens(a, pooled);
            && (h.Answered? <==> Connected(a, pooled) && a.exchange.Replies?)
            && (h.Answered? ==> a.exchange == Replies(h.reply))
            && (h.Undecodable? <==> Connected(a, pooled) && a.exchange.Garbled?)
            && (h.Unsupported? <==> LacksVsock(a, pooled))
            && (h.Faulted? <==> MeetsFault(a, pooled))
            && (h == Faulted(TimeoutError) <==> Meets(a, pooled, TimeoutError))
            && (h == Faulted(ConnectionError) <==> Meets(a, pooled, ConnectionError))
  {
    var h := Happens(a, pooled);
    assert h.Faulted? ==> h.fault == TimeoutError || h.fault == ConnectionError;
    assert MeetsFault(a, pooled) ==> h.Faulted?;
  }

  /** The result `r` is what this last attempt comes to: its reply, a malformed one, or the exception for its fault. */
  ghost predicate EndsAs<R>(a: Attempt<R>, pooled: bool, r: Result<R, ClientError>) {
    && (r.Success? <==> Connected(a, pooled) && a.exchange.Replies?)
    && (r.Success? ==> a.exchange == Replies(r.value))
    && (r == Failure(MalformedEnclaveResponseError) <==> Connected(a, pooled) && a.exchange.Garbled?)
    && (r == Failure(EnclaveTimeoutError) <==> Meets(a, pooled, TimeoutError))
    && (r == Failure(EnclaveCommunicationError) <==> Meets(a, pooled, ConnectionError) || LacksVsock(a, pooled))
  }

  /** The attempts of a call: all but the last are faults, and the last one ends it; as a fault only when the budget is
      spent. */
  lemma {:induction false} Course<R>(script: seq<Attempt<R>>, pooled: nat, budget: nat)
    requires |script| >= budget > 0
    ensures var (n, r) := Verdict(script, pooled, budget);
            && (forall i | 0 <= i < n - 1 :: Happens(script[i], pooled > i).Faulted?)
            && r == Ended(Happens(script[n - 1], pooled > n - 1))
            && (Happens(script[n - 1], pooled > n - 1).Faulted? ==> n == budget)
    decreases budget
  {
    var (n, r) := Verdict(script, pooled, budget);
    if n > 1 {
      Course(script[1..], if pooled > 0 then pooled - 1 else 0, budget - 1);
      forall i | 0 <= i < n - 1 ensures Happens(script[i], pooled > i).Faulted? {
        if i > 0 {
          assert script[1..][i - 1] == script[i];
        }
      }
    }
  }

  /** One attempt of them, seen from the loop. */
  lemma Turn<R>(script: seq<Attempt<R>>, pooled: nat, budget: nat, made: nat, h: Happening<R>)
    requires |script| >= budget > 0 && made < Verdict(script, pooled, budget).0
    requires h == Happens(script[made], pooled > made)
    ensures var (n, r) := Verdict(script, pooled, budget);
            if made + 1 < n then h.Faulted? else r == Ended(h) && (h.Faulted? ==> n == budget)
  {
    Course(script, pooled, budget);
  }

  /** Every attempt before the last met a timeout or a connection error. The last one decides: its reply is returned,
      its undecodable frame is reported at once, a timeout as a timeout and a connection error as one; and a fault
      ends the call only when the budget is spent. */
  lemma FaultsPrecede<R>(script: seq<Attempt<R>>, pooled: nat, budget: nat)
    requires |script| >= budget > 0
    ensures var (n, r) := Verdict(script, pooled, budget);
            forall i | 0 <= i < n - 1 :: MeetsFault(script[i], pooled > i)
    ensures var (n, r) := Verdict(script, pooled, budget);
            EndsAs(script[n - 1], pooled > n - 1, r) && (MeetsFault(script[n - 1], pooled > n - 1) ==> n == budget)
  {
    Course(script, pooled, budget);
    var n := Verdict(script, pooled, budget).0;
    HappensExactly(script[n - 1], pooled > n - 1);
    forall i | 0 <= i < n - 1 ensures MeetsFault(script[i], pooled > i) {
      HappensExactly(script[i], pooled > i);
    }
  }

  /** What is left of a pool of which `n` connections have been taken. */
  function Left(pool: seq<nat>, n: nat): seq<nat> {
    if n <= |pool| then pool[..|pool| - n] else []
  }

  lemma LeftLess(pool: seq<nat>, n: nat)
    ensures Left(Left(pool, n), 1) == Left(pool, n + 1)
  {
  }

  /** The pool after one more attempt, given what is left of it before. */
  predicate PoolAfter(before: seq<nat>, answered: bool, max: int, after: seq<nat>) {
    if !answered then after == Left(before, 1)
    else if before != [] then after == before
    else |after| == if max > 0 then 1 else 0
  }

  /** The pool after `n` attempts of a call. */
  predicate PoolAfterCall(before: seq<nat>, n: nat, answered: bool, max: int, after: seq<nat>)
    requires n > 0
  {
    if !answered then after == Left(before, n)
    else if n <= |before| then after == Left(before, n - 1)
    else |after| == if max > 0 then 1 else 0
  }

  lemma PoolAfterLast(pool: seq<nat>, made: nat, before: seq<nat>, answered: bool, max: int, after: seq<nat>)
    requires before == Left(pool, made) && PoolAfter(before, answered, max, after)
    ensures PoolAfterCall(pool, made + 1, answered, max, after)
    ensures !answered ==> after == Left(pool, made + 1)
  {
    LeftLess(pool, made);
  }

  function Range(n: nat): (r: set<nat>)
    ensures forall c: nat :: c in r <==> c < n
  {
    if n == 0 then {} else Range(n - 1) + {n - 1}
  }

  /** The client object. Connections are numbered in the order in which they are opened. */
  class Client<R> {
    const maxRetries: int
    const maxPoolSize: int
    var pool: seq<nat>
    var connected: nat
    var closed: set<nat>
    var slept: seq<nat>

    constructor (maxRetries: int, maxPoolSize: int)
      ensures this.maxRetries == maxRetries && this.maxPoolSize == maxPoolSize
      ensures Conserved({}) && pool == [] && slept == []
    {
      this.maxRetries, this.maxPoolSize := maxRetries, maxPoolSize;
      this.pool, this.connected, this.closed, this.slept := [], 0, {}, [];
    }

    /** Every connection ever opened is in exactly one place: in use, in the pool, or closed; the pool holds no
        connection twice and no more than it may. */
    ghost predicate Conserved(inUse: set<nat>)
      reads this
    {
      var pooled := set i | 0 <= i < |pool| :: pool[i];
      && (forall i, j | 0 <= i < j < |pool| :: pool[i] != pool[j])
      && inUse !! pooled && inUse !! closed && pooled !! closed
      && inUse + pooled + closed == Range(connected)
      && (pool == [] || |pool| <= maxPoolSize)
    }

    /** `_acquire_connection` once `connect` is known to succeed. */
    method Acquire() returns (c: nat)
      requires Conserved({})
      modifies this`pool, this`connected
      ensures Conserved({c})
      ensures old(pool) != [] ==>
                c == old(pool)[|old(pool)| - 1] && pool == old(pool)[..|old(pool)| - 1]
                && connected == old(connected)
      ensures old(pool) == [] ==> c == old(connected) && pool == [] && connected == old(connected) + 1
    {
      if pool != [] {
        c := pool[|pool| - 1];
        ghost var before := set i | 0 <= i < |pool| :: pool[i];
        pool := pool[..|pool| - 1];
        ghost var after := set i | 0 <= i < |pool| :: pool[i];
        assert before == after + {c} by {
          assert forall i | 0 <= i < |pool| :: pool[i] == old(pool)[i];
        }
        assert c !in after by { assert forall i | 0 <= i < |pool| :: pool[i] != c; }
      } else {
        c := connected;
        connected := connected + 1;
      }
    }

    /** `_release_connection`. */
    method Release(c: nat)
      requires Conserved({c})
      modifies this`pool, this`closed
      ensures Conserved({})
      ensures if |old(pool)| >= maxPoolSize then pool == old(pool) && closed == old(closed) + {c}
              else pool == old(pool) + [c] && closed == old(closed)
    {
      if |pool| >= maxPoolSize {
        closed := closed + {c};
        return;
      }
      ghost var before := set i | 0 <= i < |pool| :: pool[i];
      assert forall i | 0 <= i < |pool| :: pool[i] in before;
      pool := pool + [c];
      ghost var after := set i | 0 <= i < |pool| :: pool[i];
      assert after == before + {c} by {
        assert pool[|pool| - 1] == c;
        assert forall i | 0 <= i < |pool| - 1 :: pool[i] == old(pool)[i];
      }
    }

    /** `_discard_connection`. */
    method Discard(c: nat)
      requires Conserved({c})
      modifies this`closed
      ensures Conserved({}) && closed == old(closed) + {c}
    {
      closed := closed + {c};
    }

    /** One pass through the `try` block of `send_request`, with the clean-up of its `except` clauses. The connection
        comes from the end of the pool, or is opened; it goes back to the pool after a reply, and is closed
        otherwise. */
    method TryOnce(a: Attempt<R>) returns (h: Happening<R>)
      requires Conserved({})
      modifies this`pool, this`connected, this`closed
      ensures Conserved({})
      ensures h == Happens(a, old(pool) != [])
      ensures var c := if old(pool) != [] then old(pool)[|old(pool)| - 1] else old(connected);
              if !Connected(a, old(pool) != []) then pool == old(pool) == [] && closed == old(closed)
              else if a.exchange.Replies? && |Left(old(pool), 1)| < maxPoolSize then
                pool == Left(old(pool), 1) + [c] && closed == old(closed)
              else pool == Left(old(pool), 1) && closed == old(closed) + {c}
      ensures PoolAfter(old(pool), h.Answered?, maxPoolSize, pool)
    {
      h := Happens(a, pool != []);
      if pool == [] && !a.connect.Connects? { return; }
      var c := Acquire();
      if a.exchange.Replies? {
        Release(c);
      } else {
        Discard(c);
      }
    }

    /** `send_request`: `script` says what happens to each attempt. */
    method SendRequest(script: seq<Attempt<R>>) returns (r: Result<R, ClientError>)
      requires Conserved({}) && |script| >= maxRetries
      modifies this
      ensures Conserved({})
      ensures maxRetries <= 0 ==> r == Failure(EnclaveCommunicationError) && slept == old(slept)
      ensures maxRetries > 0 ==>
                var v := Verdict(script, |old(pool)|, maxRetries);
                && r == v.1 && slept == old(slept) + Pauses(v.0)
                && PoolAfterCall(old(pool), v.0, r.Success?, maxPoolSize, pool)
    {
      ghost var v :=
        if maxRetries > 0 then Verdict(script, |pool|, maxRetries) else (0, Failure(EnclaveCommunicationError));
      ghost var start := pool;
      var attempt := 1;
      NoPauses(slept);
      while attempt <= maxRetries
        invariant Conserved({})
        invariant 1 <= attempt && (attempt > 1 ==> attempt <= maxRetries)
        invariant slept == old(slept) + Pauses(attempt)
        invariant pool == Left(start, attempt - 1)
        invariant maxRetries > 0 ==> attempt <= v.0
      {
        ghost var before := pool;
        assert (pool != []) == (|start| > attempt - 1);
        var h := TryOnce(script[attempt - 1]);
        Turn(script, |start|, maxRetries, attempt - 1, h);
        PoolAfterLast(start, attempt - 1, before, h.Answered?, maxPoolSize, pool);
        match h
        case Answered(reply) => return Success(reply);
        case Undecodable => return Failure(MalformedEnclaveResponseError);
        case Unsupported => return Failure(EnclaveCommunicationError);
        case Faulted(fault) =>
          if attempt >= maxRetries { return Failure(Exhausted(fault)); }
          OneMorePause(old(slept), attempt);
          slept := slept + [Pause(attempt)];
          attempt := attempt + 1;
      }
      r := Failure(EnclaveCommunicationError);
    }
  }
}
