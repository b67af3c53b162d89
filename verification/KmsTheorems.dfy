/** What the key cache promises over whole runs. */
module KmsTheorems {
  import opened Results
  import opened Bytes
  import opened OrderedDict
  import opened KmsCache
  import opened KmsProtocol
  import opened KmsCalls
  import opened PyStr
  import Utf8

  // ----- what a run asks about -----

  /** The tenant and blob of a call that begins with this step. */
  function Asks(step: Step): Option<(string, seq<byte>)> {
    match step
    case BeginLookup(_, q) => Some((q.tenant, q.blob))
    case BeginRefresh(_, q) => Some((q.tenant, q.blob))
    case _ => None
  }

  function AskedIn(steps: seq<Step>): (asked: set<(string, seq<byte>)>)
    decreases |steps|
  {
    if steps == [] then {}
    else (if Asks(steps[0]).Some? then {Asks(steps[0]).value} else {}) + AskedIn(steps[1..])
  }

  /** Everything recorded is about a tenant and blob in `asked`. */
  ghost predicate AsksOnly(s: State, asked: set<(string, seq<byte>)>) {
    && (forall t | t in s.threads :: (s.threads[t].q.tenant, s.threads[t].q.blob) in asked)
    && (forall i | 0 <= i < |s.history.calls| :: (s.history.calls[i].tenant, s.history.calls[i].blob) in asked)
    && (forall i | 0 <= i < |s.outcomes| :: (s.outcomes[i].q.tenant, s.outcomes[i].q.blob) in asked)
  }

  lemma {:induction false} RunAsksOnly(cfg: Config, s: State, steps: seq<Step>, asked: set<(string, seq<byte>)>)
    requires AsksOnly(s, asked) && CanRun(cfg, s, steps) && AskedIn(steps) <= asked
    ensures AsksOnly(Run(cfg, s, steps), asked)
    decreases |steps|
  {
    if steps != [] {
      assert Asks(steps[0]).Some? ==> Asks(steps[0]).value in AskedIn(steps);
      StepAsksOnly(cfg, s, steps[0], asked);
      RunAsksOnly(cfg, Apply(cfg, s, steps[0]), steps[1..], asked);
    }
  }

  lemma StepAsksOnly(cfg: Config, s: State, step: Step, asked: set<(string, seq<byte>)>)
    requires AsksOnly(s, asked) && Enabled(s, step) && (Asks(step).Some? ==> Asks(step).value in asked)
    ensures AsksOnly(Apply(cfg, s, step), asked)
  {
    match step
    case Lookup(t) => LookupAsksOnly(cfg, s, t, asked);
    case Store(t) => StoreAsksOnly(cfg, s, t, asked);
    case _ =>
  }

  lemma LookupAsksOnly(cfg: Config, s: State, t: nat, asked: set<(string, seq<byte>)>)
    requires AsksOnly(s, asked) && t in s.threads && s.threads[t].AtLookup?
    ensures AsksOnly(DoLookup(cfg, s, t), asked)
  {
  }

  lemma StoreAsksOnly(cfg: Config, s: State, t: nat, asked: set<(string, seq<byte>)>)
    requires AsksOnly(s, asked) && t in s.threads && s.threads[t].AtStore?
    ensures AsksOnly(DoStore(cfg, s, t), asked)
  {
  }

  // ----- forced refreshes -----

  /** Who looks up has not been told to refresh; and whoever has been told so has asked the proxy. */
  ghost predicate RefreshesAsk(s: State) {
    && (forall t | t in s.threads && s.threads[t].AtLookup? :: !s.threads[t].q.force)
    && (forall i | 0 <= i < |s.outcomes| && s.outcomes[i].q.force :: s.outcomes[i].origin.FromProxy?)
  }

  lemma StepRefreshes(cfg: Config, s: State, step: Step)
    requires RefreshesAsk(s) && Enabled(s, step)
    ensures RefreshesAsk(Apply(cfg, s, step))
  {
  }

  lemma {:induction false} RunRefreshes(cfg: Config, s: State, steps: seq<Step>)
    requires RefreshesAsk(s) && CanRun(cfg, s, steps)
    ensures RefreshesAsk(Run(cfg, s, steps))
    decreases |steps|
  {
    if steps != [] {
      StepRefreshes(cfg, s, steps[0]);
      RunRefreshes(cfg, Apply(cfg, s, steps[0]), steps[1..]);
    }
  }

  /** In every run, a call that is told to refresh never returns what was cached: its answer is a proxy call of its
      own. */
  lemma RefreshAsksTheProxy(cfg: Config, now: real, steps: seq<Step>, i: nat)
    requires cfg.max > 0 && cfg.ttl > 0.0
    requires CanRun(cfg, Init(now), steps) && i < |Run(cfg, Init(now), steps).outcomes|
    ensures var s := Run(cfg, Init(now), steps);
            var r := s.outcomes[i];
            r.q.force ==>
              && r.origin.FromProxy? && r.origin.call < |s.history.calls|
              && var call := s.history.calls[r.origin.call];
                 call.tenant == r.q.tenant && call.blob == r.q.blob && call.result == r.value
  {
    RunRefreshes(cfg, Init(now), steps);
    RunKeepsInv(cfg, Init(now), steps);
    var s := Run(cfg, Init(now), steps);
    assert ReturnFits(cfg, s.history, s.outcomes[i]);
  }

  // ----- cache keys -----

  predicate SameKey(cfg: Config, p: (string, seq<byte>), q: (string, seq<byte>)) {
    KeyOf(cfg, p.0, p.1) == KeyOf(cfg, q.0, q.1)
  }

  /** No two of these tenants and blobs share a cache key. */
  predicate KeysApart(cfg: Config, asked: set<(string, seq<byte>)>) {
    forall p, q | p in asked && q in asked :: SameKey(cfg, p, q) ==> p == q
  }

  /** For tenant ids without NUL, cache keys are apart exactly if the digest does not collide on their preimages. */
  lemma NulFreeKeysApart(cfg: Config, asked: set<(string, seq<byte>)>)
    requires forall p | p in asked :: '\0' !in p.0
    ensures KeysApart(cfg, asked) <==>
              forall p, q | p in asked && q in asked ::
                cfg.digest(Preimage(p.0, p.1)) == cfg.digest(Preimage(q.0, q.1)) ==>
                  Preimage(p.0, p.1) == Preimage(q.0, q.1)
  {
    forall p, q | p in asked && q in asked && Preimage(p.0, p.1) == Preimage(q.0, q.1) ensures p == q {
      NulFreeText(p.0);
      NulFreeText(q.0);
      PreimageInjective(p.0, p.1, q.0, q.1);
    }
    if KeysApart(cfg, asked) {
      forall p, q | p in asked && q in asked && cfg.digest(Preimage(p.0, p.1)) == cfg.digest(Preimage(q.0, q.1))
        ensures Preimage(p.0, p.1) == Preimage(q.0, q.1)
      {
        assert SameKey(cfg, p, q);
      }
    }
  }

  // ----- freshness -----

  /** A hit: the value is what a logged successful proxy call for this very tenant and blob returned. That call was over
      when the store read its deadline clock, and the store was made before the hit; and the time this look-up read is
      less than the TTL after that clock value, hence less than the TTL after the store itself. */
  ghost predicate FreshHit(cfg: Config, h: History, r: Return) {
    r.origin.FromCache? ==>
      && r.origin.stored < |h.stores|
      && var st := h.stores[r.origin.stored];
         && st.call < |h.calls|
         && var c := h.calls[st.call];
            && c.tenant == r.q.tenant && c.blob == r.q.blob && c.result == r.value && r.value.Success?
            && c.at <= st.readAt <= st.at <= r.at
            && r.origin.readAt <= r.at && r.origin.readAt < st.readAt + cfg.ttl <= st.at + cfg.ttl
  }

  lemma HitIsFresh(cfg: Config, s: State, r: Return, asked: set<(string, seq<byte>)>)
    requires ReturnFits(cfg, s.history, r) && AsksOnly(s, asked) && KeysApart(cfg, asked)
    requires (r.q.tenant, r.q.blob) in asked
    ensures FreshHit(cfg, s.history, r)
  {
    if r.origin.FromCache? {
      var call := s.history.calls[s.history.stores[r.origin.stored].call];
      assert SameKey(cfg, (call.tenant, call.blob), (r.q.tenant, r.q.blob));
    }
  }

  /** Bounded freshness: in every run whose queries have cache keys of their own, with any interleaving, expiry,
      eviction, refresh and clearing, however often an entry is hit. */
  lemma BoundedFreshness(cfg: Config, now: real, steps: seq<Step>)
    requires cfg.max > 0 && cfg.ttl > 0.0 && CanRun(cfg, Init(now), steps)
    requires KeysApart(cfg, AskedIn(steps))
    ensures var s := Run(cfg, Init(now), steps);
            forall i | 0 <= i < |s.outcomes| :: FreshHit(cfg, s.history, s.outcomes[i])
  {
    RunKeepsInv(cfg, Init(now), steps);
    RunAsksOnly(cfg, Init(now), steps, AskedIn(steps));
    var s := Run(cfg, Init(now), steps);
    forall i | 0 <= i < |s.outcomes| ensures FreshHit(cfg, s.history, s.outcomes[i]) {
      HitIsFresh(cfg, s, s.outcomes[i], AskedIn(steps));
    }
  }

  // ----- refinement of the uncached client -----

  type Proxy = (string, seq<byte>) -> Result<seq<byte>, KmsError>

  /** Along the run the proxy answers as the fixed function `proxy` of tenant and blob. */
  ghost predicate AnswersAs(cfg: Config, s: State, steps: seq<Step>, proxy: Proxy)
    requires CanRun(cfg, s, steps)
    decreases |steps|
  {
    steps == [] ||
    ((steps[0].CallProxy? ==>
        var q := s.threads[steps[0].thread].q; steps[0].result == proxy(q.tenant, q.blob))
     && AnswersAs(cfg, Apply(cfg, s, steps[0]), steps[1..], proxy))
  }

  ghost predicate Consistent(h: History, proxy: Proxy) {
    forall i | 0 <= i < |h.calls| :: h.calls[i].result == proxy(h.calls[i].tenant, h.calls[i].blob)
  }

  lemma {:induction false} RunStaysConsistent(cfg: Config, s: State, steps: seq<Step>, proxy: Proxy)
    requires CanRun(cfg, s, steps) && AnswersAs(cfg, s, steps, proxy) && Consistent(s.history, proxy)
    ensures Consistent(Run(cfg, s, steps).history, proxy)
    decreases |steps|
  {
    if steps != [] {
      RunStaysConsistent(cfg, Apply(cfg, s, steps[0]), steps[1..], proxy);
    }
  }

  /** Where two of these queries share a cache key and the proxy has an answer to one, it has the same for the other. */
  predicate SharedKeysAgree(cfg: Config, asked: set<(string, seq<byte>)>, proxy: Proxy) {
    forall p, q | p in asked && q in asked ::
      SameKey(cfg, p, q) && proxy(p.0, p.1).Success? ==> proxy(q.0, q.1) == proxy(p.0, p.1)
  }

  /** Every call that has returned has returned what the client without a cache would have. */
  ghost predicate AsUncached(s: State, proxy: Proxy) {
    forall i | 0 <= i < |s.outcomes| :: s.outcomes[i].value == proxy(s.outcomes[i].q.tenant, s.outcomes[i].q.blob)
  }

  /** The cache is transparent: with a proxy that is a function of tenant and blob, every call that returns, in every
      interleaved run, returns what the client without a cache would have. */
  lemma RefinesUncachedClient(cfg: Config, now: real, steps: seq<Step>, proxy: Proxy)
    requires cfg.max > 0 && cfg.ttl > 0.0 && CanRun(cfg, Init(now), steps)
    requires AnswersAs(cfg, Init(now), steps, proxy) && SharedKeysAgree(cfg, AskedIn(steps), proxy)
    ensures AsUncached(Run(cfg, Init(now), steps), proxy)
  {
    RunKeepsInv(cfg, Init(now), steps);
    RunStaysConsistent(cfg, Init(now), steps, proxy);
    RunAsksOnly(cfg, Init(now), steps, AskedIn(steps));
    var s := Run(cfg, Init(now), steps);
    forall i | 0 <= i < |s.outcomes|
      ensures s.outcomes[i].value == proxy(s.outcomes[i].q.tenant, s.outcomes[i].q.blob)
    {
      ReturnIsTheProxys(cfg, s, s.outcomes[i], AskedIn(steps), proxy);
    }
  }

  lemma ReturnIsTheProxys(cfg: Config, s: State, r: Return, asked: set<(string, seq<byte>)>, proxy: Proxy)
    requires ReturnFits(cfg, s.history, r) && AsksOnly(s, asked) && (r.q.tenant, r.q.blob) in asked
    requires Consistent(s.history, proxy) && SharedKeysAgree(cfg, asked, proxy)
    ensures r.value == proxy(r.q.tenant, r.q.blob)
  {
    if r.origin.FromCache? {
      var call := s.history.calls[s.history.stores[r.origin.stored].call];
      assert SameKey(cfg, (call.tenant, call.blob), (r.q.tenant, r.q.blob));
    }
  }

  /** One call after the other: the first one stores its key, the second one finds it. */
  function LeakingRun(p: Query, q: Query, plaintext: seq<byte>): seq<Step> {
    StoringCall(p, plaintext) + [BeginLookup(1, q), Lookup(1)]
  }

  function StoringCall(p: Query, plaintext: seq<byte>): seq<Step> {
    [BeginLookup(0, p), Lookup(0)] + MissSteps(0, Success(plaintext), 0.0, 0.0)
  }

  /** The first call on an empty cache leaves its one entry. */
  lemma StoringCallStores(cfg: Config, now: real, p: Query, plaintext: seq<byte>)
    requires cfg.max > 0 && !p.force
    ensures CanRun(cfg, Init(now), StoringCall(p, plaintext))
    ensures Finished(Init(now), Run(cfg, Init(now), StoringCall(p, plaintext)), 0, p, Success(plaintext),
                     [(KeyOf(cfg, p.tenant, p.blob), CacheEntry(plaintext, now + cfg.ttl))], now)
  {
    MissedCall(cfg, Init(now), 0, p, Success(plaintext), 0.0, 0.0, []);
    var key := KeyOf(cfg, p.tenant, p.blob);
    var empty: Cache := [];
    assert Purge(empty, now) == empty && Remove(empty, key) == empty;
    assert StoreInCache(empty, cfg.max, key, plaintext, now + cfg.ttl, now)
           == [(key, CacheEntry(plaintext, now + cfg.ttl))];
  }

  /** Two queries that share a cache key get one answer: the second call returns the first one's plaintext. */
  lemma SharedKeyLeaks(cfg: Config, now: real, p: Query, q: Query, plaintext: seq<byte>)
    requires cfg.max > 0 && cfg.ttl > 0.0 && !p.force && !q.force
    requires KeyOf(cfg, p.tenant, p.blob) == KeyOf(cfg, q.tenant, q.blob)
    ensures CanRun(cfg, Init(now), LeakingRun(p, q, plaintext))
    ensures var s := Run(cfg, Init(now), LeakingRun(p, q, plaintext));
            && |s.outcomes| == 2 && s.outcomes[1].q == q && s.outcomes[1].value == Success(plaintext)
            && s.outcomes[1].origin.FromCache?
            && forall c | c in s.history.calls :: c.tenant == p.tenant && c.blob == p.blob
  {
    StoringCallStores(cfg, now, p, plaintext);
    var s := Run(cfg, Init(now), StoringCall(p, plaintext));
    assert LookupCache(s.cache, KeyOf(cfg, q.tenant, q.blob), s.now).1 == Some(plaintext);
    HitRun(cfg, s, 1, q);
    RunJoin(cfg, Init(now), StoringCall(p, plaintext), [BeginLookup(1, q), Lookup(1)]);
    StoringCallAsks(p, plaintext);
    RunAsksOnly(cfg, Init(now), StoringCall(p, plaintext), {(p.tenant, p.blob)});
    forall c | c in s.history.calls ensures c.tenant == p.tenant && c.blob == p.blob {
      var i :| 0 <= i < |s.history.calls| && s.history.calls[i] == c;
      assert (c.tenant, c.blob) in {(p.tenant, p.blob)};
    }
  }

  /** For instance, under every digest: the tenant `a\0b` gets the plaintext of the tenant `a`. */
  lemma NulTenantLeaks(cfg: Config, now: real, plaintext: seq<byte>)
    requires cfg.max > 0 && cfg.ttl > 0.0
    ensures var p, q := Query("a", [0x62, 0, 0x63], false), Query("a\0b", [0x63], false);
            && CanRun(cfg, Init(now), LeakingRun(p, q, plaintext))
            && var s := Run(cfg, Init(now), LeakingRun(p, q, plaintext));
               |s.outcomes| == 2 && s.outcomes[1].q == q && s.outcomes[1].value == Success(plaintext)
  {
    NulTenantsCollide();
    SharedKeyLeaks(cfg, now, Query("a", [0x62, 0, 0x63], false), Query("a\0b", [0x63], false), plaintext);
  }

  /** Every run of these queries is answered as by the client without a cache. */
  ghost predicate Transparent(cfg: Config, now: real, asked: set<(string, seq<byte>)>, proxy: Proxy) {
    forall steps |
      CanRun(cfg, Init(now), steps) && AskedIn(steps) <= asked && AnswersAs(cfg, Init(now), steps, proxy) ::
      AsUncached(Run(cfg, Init(now), steps), proxy)
  }

  /** Exactly when the cache is transparent for a set of queries. */
  lemma TransparentExactly(cfg: Config, now: real, asked: set<(string, seq<byte>)>, proxy: Proxy)
    requires cfg.max > 0 && cfg.ttl > 0.0
    ensures Transparent(cfg, now, asked, proxy) <==> SharedKeysAgree(cfg, asked, proxy)
  {
    if SharedKeysAgree(cfg, asked, proxy) {
      forall steps | CanRun(cfg, Init(now), steps) && AskedIn(steps) <= asked && AnswersAs(cfg, Init(now), steps, proxy)
        ensures AsUncached(Run(cfg, Init(now), steps), proxy)
      {
        RefinesUncachedClient(cfg, now, steps, proxy);
      }
    } else {
      var p, q :| p in asked && q in asked && SameKey(cfg, p, q) && proxy(p.0, p.1).Success?
                  && proxy(q.0, q.1) != proxy(p.0, p.1);
      LeakIsVisible(cfg, now, asked, proxy, Query(p.0, p.1, false), Query(q.0, q.1, false));
    }
  }

  lemma LeakIsVisible(cfg: Config, now: real, asked: set<(string, seq<byte>)>, proxy: Proxy, p: Query, q: Query)
    requires cfg.max > 0 && cfg.ttl > 0.0 && !p.force && !q.force
    requires (p.tenant, p.blob) in asked && (q.tenant, q.blob) in asked
    requires KeyOf(cfg, p.tenant, p.blob) == KeyOf(cfg, q.tenant, q.blob)
    requires proxy(p.tenant, p.blob).Success? && proxy(q.tenant, q.blob) != proxy(p.tenant, p.blob)
    ensures !Transparent(cfg, now, asked, proxy)
  {
    var plaintext := proxy(p.tenant, p.blob).value;
    var steps := LeakingRun(p, q, plaintext);
    SharedKeyLeaks(cfg, now, p, q, plaintext);
    LeakingRunAsks(p, q, plaintext);
    LeakingRunAnswers(cfg, now, p, q, proxy);
    assert Run(cfg, Init(now), steps).outcomes[1].value != proxy(q.tenant, q.blob);
    assert !AsUncached(Run(cfg, Init(now), steps), proxy);
  }

  lemma {:induction false} AskedJoin(first: seq<Step>, second: seq<Step>)
    ensures AskedIn(first + second) == AskedIn(first) + AskedIn(second)
    decreases |first|
  {
    if first == [] {
      assert first + second == second;
    } else {
      assert (first + second)[1..] == first[1..] + second;
      AskedJoin(first[1..], second);
    }
  }

  lemma LeakingRunAsks(p: Query, q: Query, plaintext: seq<byte>)
    ensures AskedIn(LeakingRun(p, q, plaintext)) == {(p.tenant, p.blob), (q.tenant, q.blob)}
  {
    AskedJoin(StoringCall(p, plaintext), [BeginLookup(1, q), Lookup(1)]);
    StoringCallAsks(p, plaintext);
    OneQuestion(1, q);
  }

  lemma StoringCallAsks(p: Query, plaintext: seq<byte>)
    ensures AskedIn(StoringCall(p, plaintext)) == {(p.tenant, p.blob)}
  {
    AskedJoin([BeginLookup(0, p), Lookup(0)], MissSteps(0, Success(plaintext), 0.0, 0.0));
    NoQuestions(MissSteps(0, Success(plaintext), 0.0, 0.0));
    OneQuestion(0, p);
  }

  lemma OneQuestion(t: nat, q: Query)
    ensures AskedIn([BeginLookup(t, q), Lookup(t)]) == {(q.tenant, q.blob)}
  {
    assert [BeginLookup(t, q), Lookup(t)][1..] == [Lookup(t)];
    NoQuestions([Lookup(t)]);
  }

  lemma {:induction false} NoQuestions(steps: seq<Step>)
    requires forall i | 0 <= i < |steps| :: Asks(steps[i]).None?
    ensures AskedIn(steps) == {}
    decreases |steps|
  {
    if steps != [] { NoQuestions(steps[1..]); }
  }

  lemma {:induction false} AnswersJoin(cfg: Config, s: State, first: seq<Step>, second: seq<Step>, proxy: Proxy)
    requires CanRun(cfg, s, first) && AnswersAs(cfg, s, first, proxy)
    requires CanRun(cfg, Run(cfg, s, first), second) && AnswersAs(cfg, Run(cfg, s, first), second, proxy)
    ensures CanRun(cfg, s, first + second) && AnswersAs(cfg, s, first + second, proxy)
    decreases |first|
  {
    RunJoin(cfg, s, first, second);
    if first == [] {
      assert first + second == second;
    } else {
      assert (first + second)[1..] == first[1..] + second;
      AnswersJoin(cfg, Apply(cfg, s, first[0]), first[1..], second, proxy);
    }
  }

  /** The only proxy call of that run is the first query's. */
  lemma LeakingRunAnswers(cfg: Config, now: real, p: Query, q: Query, proxy: Proxy)
    requires cfg.max > 0 && cfg.ttl > 0.0 && proxy(p.tenant, p.blob).Success? && !p.force && !q.force
    requires KeyOf(cfg, p.tenant, p.blob) == KeyOf(cfg, q.tenant, q.blob)
    requires CanRun(cfg, Init(now), LeakingRun(p, q, proxy(p.tenant, p.blob).value))
    ensures AnswersAs(cfg, Init(now), LeakingRun(p, q, proxy(p.tenant, p.blob).value), proxy)
  {
    var plaintext := proxy(p.tenant, p.blob).value;
    StoringCallAnswers(cfg, now, p, proxy);
    StoringCallStores(cfg, now, p, plaintext);
    var s := Run(cfg, Init(now), StoringCall(p, plaintext));
    HitRun(cfg, s, 1, q);
    NoCallsLeft(cfg, s, [BeginLookup(1, q), Lookup(1)], proxy);
    AnswersJoin(cfg, Init(now), StoringCall(p, plaintext), [BeginLookup(1, q), Lookup(1)], proxy);
  }

  lemma StoringCallAnswers(cfg: Config, now: real, p: Query, proxy: Proxy)
    requires cfg.max > 0 && proxy(p.tenant, p.blob).Success? && !p.force
    ensures CanRun(cfg, Init(now), StoringCall(p, proxy(p.tenant, p.blob).value))
    ensures AnswersAs(cfg, Init(now), StoringCall(p, proxy(p.tenant, p.blob).value), proxy)
  {
    var plaintext := proxy(p.tenant, p.blob).value;
    var front, rest := [BeginLookup(0, p), Lookup(0)], MissSteps(0, Success(plaintext), 0.0, 0.0);
    BeginsMiss(cfg, Init(now), 0, p, []);
    var s := Run(cfg, Init(now), front);
    MissRun(cfg, s, 0, Success(plaintext), 0.0, 0.0);
    NoCallsLeft(cfg, Init(now), front, proxy);
    NoCallsLeft(cfg, Apply(cfg, s, rest[0]), rest[1..], proxy);
    AnswersJoin(cfg, Init(now), front, rest, proxy);
  }

  lemma {:induction false} NoCallsLeft(cfg: Config, s: State, steps: seq<Step>, proxy: Proxy)
    requires CanRun(cfg, s, steps) && forall i | 0 <= i < |steps| :: !steps[i].CallProxy?
    ensures AnswersAs(cfg, s, steps, proxy)
    decreases |steps|
  {
    if steps != [] {
      NoCallsLeft(cfg, Apply(cfg, s, steps[0]), steps[1..], proxy);
    }
  }

  /** Every hit in every run of these queries is fresh, and is an answer to its own query. */
  ghost predicate AlwaysFresh(cfg: Config, now: real, asked: set<(string, seq<byte>)>) {
    forall steps | CanRun(cfg, Init(now), steps) && AskedIn(steps) <= asked ::
      AllFresh(cfg, Run(cfg, Init(now), steps))
  }

  ghost predicate AllFresh(cfg: Config, s: State) {
    forall i | 0 <= i < |s.outcomes| :: FreshHit(cfg, s.history, s.outcomes[i])
  }

  /** Exactly when freshness is bounded for a set of queries. */
  lemma FreshExactly(cfg: Config, now: real, asked: set<(string, seq<byte>)>)
    requires cfg.max > 0 && cfg.ttl > 0.0
    ensures AlwaysFresh(cfg, now, asked) <==> KeysApart(cfg, asked)
  {
    if KeysApart(cfg, asked) {
      forall steps | CanRun(cfg, Init(now), steps) && AskedIn(steps) <= asked
        ensures AllFresh(cfg, Run(cfg, Init(now), steps))
      {
        BoundedFreshness(cfg, now, steps);
      }
    } else {
      var p, q :| p in asked && q in asked && SameKey(cfg, p, q) && p != q;
      var one, two := Query(p.0, p.1, false), Query(q.0, q.1, false);
      SharedKeyLeaks(cfg, now, one, two, []);
      LeakingRunAsks(one, two, []);
      var s := Run(cfg, Init(now), LeakingRun(one, two, []));
      assert !FreshHit(cfg, s.history, s.outcomes[1]);
      assert !AllFresh(cfg, s);
    }
  }

  // ----- eviction -----

  /** At every point of every run the cache is within its limit and in last-use order. */
  lemma AlwaysBoundedAndOrdered(cfg: Config, now: real, steps: seq<Step>)
    requires cfg.max > 0 && cfg.ttl > 0.0 && CanRun(cfg, Init(now), steps)
    ensures var s := Run(cfg, Init(now), steps);
            |s.cache| <= cfg.max && Unique(s.cache) && InUseOrder(s.cache, s.lastUse, s.steps)
  {
    RunKeepsInv(cfg, Init(now), steps);
    var s := Run(cfg, Init(now), steps);
    OrderIsUnique(s.cache, s.lastUse, s.steps);
  }

  /** `kept` is full, and everything in it survived the purge or was just stored under `stored`, and was used after
      `evicted` was. */
  ghost predicate FullOfNewer(live: Cache, kept: Cache, max: nat, stored: string, evicted: string,
                              lastUse: map<string, nat>, lastUse': map<string, nat>)
  {
    && evicted in lastUse
    && |kept| == max
    && forall x | x in kept :: (x in live || x.0 == stored) && x.0 in lastUse' && lastUse[evicted] < lastUse'[x.0]
  }

  /** A store evicts a key that survived its purge only when the cache ends up full of `max` others, each of which
      survived the purge too or was just stored, and each of which was used more recently. */
  lemma EvictionIsLeastRecentlyUsed(cfg: Config, s: State, t: nat, evicted: string)
    requires Inv(cfg, s) && Enabled(s, Store(t))
    requires Has(Purge(s.cache, s.now), evicted) && !Has(Apply(cfg, s, Store(t)).cache, evicted)
    ensures var s', stored := Apply(cfg, s, Store(t)), KeyOf(cfg, s.threads[t].q.tenant, s.threads[t].q.blob);
            FullOfNewer(Purge(s.cache, s.now), s'.cache, cfg.max, stored, evicted, s.lastUse, s'.lastUse)
  {
    var AtStore(q, plaintext, call, readAt) := s.threads[t];
    StoreEvictsOldest(s.cache, cfg.max, KeyOf(cfg, q.tenant, q.blob), plaintext, readAt + cfg.ttl, s.now,
                      evicted, s.lastUse, s.steps);
  }

  lemma StoreEvictsOldest(cache: Cache, max: nat, key: string, plaintext: seq<byte>, expiresAt: real, now: real,
                          evicted: string, lastUse: map<string, nat>, steps: nat)
    requires max > 0 && InUseOrder(cache, lastUse, steps) && Has(Purge(cache, now), evicted)
    requires !Has(StoreInCache(cache, max, key, plaintext, expiresAt, now), evicted)
    ensures FullOfNewer(Purge(cache, now), StoreInCache(cache, max, key, plaintext, expiresAt, now), max, key, evicted,
                        lastUse, lastUse[key := steps])
  {
    PurgeKeepsOrder(cache, now, lastUse, steps);
    KeptIsNewer(Purge(cache, now), key, CacheEntry(plaintext, expiresAt), evicted, lastUse, steps, max);
  }

  lemma KeptIsNewer(live: Cache, key: string, e: CacheEntry, evicted: string, lastUse: map<string, nat>, steps: nat,
                    max: nat)
    requires max > 0 && InUseOrder(live, lastUse, steps)
    requires Has(live, evicted) && !Has(KeepLast(Remove(live, key) + [(key, e)], max), evicted)
    ensures FullOfNewer(live, KeepLast(Remove(live, key) + [(key, e)], max), max, key, evicted, lastUse,
            lastUse[key := steps])
  {
    var all := Remove(live, key) + [(key, e)];
    KeepsStored(Remove(live, key), key, e, max);
    assert evicted != key;
    StaysBefore(live, key, e, evicted, lastUse, steps);
    RemoveKeepsOrder(live, key, lastUse, steps);
    AppendKeepsOrder(Remove(live, key), key, e, lastUse, steps);
    DroppedIsOldest(all, max, evicted, lastUse[key := steps], steps + 1);
    forall x | x in KeepLast(all, max) ensures x in live || x.0 == key {
      assert x in all;
    }
  }

  lemma KeepsStored(cache: Cache, key: string, e: CacheEntry, max: nat)
    requires max > 0
    ensures Has(KeepLast(cache + [(key, e)], max), key)
  {
    var r := KeepLast(cache + [(key, e)], max);
    assert r[|r| - 1].0 == key;
  }

  /** A key other than the stored one is still there before trimming. */
  lemma StaysBefore(live: Cache, key: string, e: CacheEntry, other: string, lastUse: map<string, nat>, steps: nat)
    requires InUseOrder(live, lastUse, steps) && Has(live, other) && other != key
    ensures Has(Remove(live, key) + [(key, e)], other) && other in lastUse
  {
    OrderIsUnique(live, lastUse, steps);
    RemoveLookup(live, key, other);
    var k :| 0 <= k < |Remove(live, key)| && Remove(live, key)[k].0 == other;
    assert (Remove(live, key) + [(key, e)])[k].0 == other;
  }

  /** In a list in use order, whatever trimming drops was used before everything it keeps. */
  lemma DroppedIsOldest(all: Cache, max: nat, key: string, lastUse: map<string, nat>, steps: nat)
    requires InUseOrder(all, lastUse, steps) && Has(all, key) && !Has(KeepLast(all, max), key)
    ensures |KeepLast(all, max)| == max && key in lastUse
    ensures forall x | x in KeepLast(all, max) :: x.0 in lastUse && lastUse[key] < lastUse[x.0]
  {
    var i := DroppedAt(all, max, key);
    var r := KeepLast(all, max);
    forall x | x in r ensures x.0 in lastUse && lastUse[key] < lastUse[x.0] {
      var j :| 0 <= j < |r| && r[j] == x;
      assert all[|all| - max + j] == x;
    }
  }

  /** A key that trimming loses sat in the part that was trimmed. */
  lemma DroppedAt(all: Cache, max: nat, key: string) returns (i: nat)
    requires Has(all, key) && !Has(KeepLast(all, max), key)
    ensures |all| > max && i < |all| - max && all[i].0 == key
  {
    i :| 0 <= i < |all| && all[i].0 == key;
    assert |all| > max;
  }

  /** A store reads the clock twice, so an entry can be past its deadline the moment it is stored. It is in the cache
      all the same, and the next look-up finds it exactly if the time it has read is before the deadline. */
  lemma StoredUntilItsDeadline(cfg: Config, s: State, t: nat, now: real)
    requires cfg.max > 0 && InUseOrder(s.cache, s.lastUse, s.steps) && Enabled(s, Store(t))
    ensures var s' := Apply(cfg, s, Store(t));
            var key := KeyOf(cfg, s.threads[t].q.tenant, s.threads[t].q.blob);
            && Has(s'.cache, key)
            && LookupCache(s'.cache, key, now).1
               == if now < s.threads[t].readAt + cfg.ttl then Some(s.threads[t].plaintext) else None
  {
    var AtStore(q, plaintext, call, readAt) := s.threads[t];
    StoredIsFound(s.cache, cfg.max, KeyOf(cfg, q.tenant, q.blob), plaintext, readAt + cfg.ttl, s.now, now,
                  s.lastUse, s.steps);
  }

  lemma StoredIsFound(cache: Cache, max: nat, key: string, plaintext: seq<byte>, expiresAt: real, storedAt: real,
                      now: real, lastUse: map<string, nat>, steps: nat)
    requires max > 0 && InUseOrder(cache, lastUse, steps)
    ensures var r := StoreInCache(cache, max, key, plaintext, expiresAt, storedAt);
            && Unique(r) && r != [] && r[|r| - 1] == (key, CacheEntry(plaintext, expiresAt))
            && Has(r, key) && LookupCache(r, key, now).1 == if now < expiresAt then Some(plaintext) else None
  {
    var r := StoreInCache(cache, max, key, plaintext, expiresAt, storedAt);
    assert r[|r| - 1] == (key, CacheEntry(plaintext, expiresAt));
    StoreShape(cache, max, key, plaintext, expiresAt, storedAt, lastUse, steps);
    OrderIsUnique(r, lastUse[key := steps], steps + 1);
    if now < expiresAt {
      LiveIsFound(r, |r| - 1, now);
    } else {
      ExpiredIsPurged(r, |r| - 1, now);
    }
  }

  lemma LiveIsFound(cache: Cache, i: nat, now: real)
    requires Unique(cache) && i < |cache| && now < cache[i].1.expiresAt
    ensures Get(Purge(cache, now), cache[i].0) == Some(cache[i].1)
  {
    PurgeFacts(cache, now);
    assert cache[i] in Purge(cache, now);
    var j :| 0 <= j < |Purge(cache, now)| && Purge(cache, now)[j] == cache[i];
    GetAt(Purge(cache, now), j);
  }

  lemma ExpiredIsPurged(cache: Cache, i: nat, now: real)
    requires Unique(cache) && i < |cache| && cache[i].1.expiresAt <= now
    ensures !Has(Purge(cache, now), cache[i].0)
  {
    PurgeFacts(cache, now);
    forall k | 0 <= k < |Purge(cache, now)| ensures Purge(cache, now)[k].0 != cache[i].0 {
      assert Purge(cache, now)[k] in cache;
      var j :| 0 <= j < |cache| && cache[j] == Purge(cache, now)[k];
      assert j != i;
    }
  }

  // ----- one call -----

  lemma LookupExactly(cache: Cache, key: string, now: real)
    requires Unique(cache)
    ensures forall e | (key, e) in cache && now < e.expiresAt :: LookupCache(cache, key, now).1 == Some(e.plaintext)
    ensures (forall e | (key, e) in cache :: e.expiresAt <= now) ==>
              LookupCache(cache, key, now) == (Purge(cache, now), None)
  {
    forall e | (key, e) in cache && now < e.expiresAt ensures LookupCache(cache, key, now).1 == Some(e.plaintext) {
      var i :| 0 <= i < |cache| && cache[i] == (key, e);
      LiveIsFound(cache, i, now);
    }
    if forall e | (key, e) in cache :: e.expiresAt <= now {
      PurgeFacts(cache, now);
      forall k | 0 <= k < |Purge(cache, now)| ensures Purge(cache, now)[k].0 != key {
        assert Purge(cache, now)[k] in cache;
      }
    }
  }

  lemma StoredLast(cache: Cache, max: nat, key: string, plaintext: seq<byte>, expiresAt: real, now: real)
    requires max > 0
    ensures var r := StoreInCache(cache, max, key, plaintext, expiresAt, now);
            r != [] && r[|r| - 1] == (key, CacheEntry(plaintext, expiresAt))
  {
  }

  /** The cache key, byte by byte: tenant, NUL, blob. */
  predicate IsKey(digest: seq<byte> -> string, tenant: string, blob: seq<byte>, key: string) {
    key == digest(Utf8.Encode(tenant) + [0] + blob)
  }

  /** A live entry of the key. */
  ghost predicate IsLive(cache: Cache, key: string, now: real, plaintext: seq<byte>) {
    exists e :: (key, e) in cache && now < e.expiresAt && e.plaintext == plaintext
  }

  lemma LiveAnswers(cache: Cache, key: string, now: real)
    requires Unique(cache)
    ensures forall p | IsLive(cache, key, now, p) :: LookupCache(cache, key, now).1 == Some(p)
    ensures (forall p :: !IsLive(cache, key, now, p)) ==> LookupCache(cache, key, now) == (Purge(cache, now), None)
  {
    LookupExactly(cache, key, now);
    if forall p :: !IsLive(cache, key, now, p) {
      forall e | (key, e) in cache ensures e.expiresAt <= now {
        assert !IsLive(cache, key, now, e.plaintext);
      }
    }
  }

  /** A result of attestation and proxy, and what it leaves: a plaintext is kept, last, until a TTL after the clock was
      read for it; a failure leaves the cache as it was seen. */
  ghost predicate AsksAndKeeps(seen: Cache, key: string, uncached: Result<seq<byte>, KmsError>, expiresAt: real,
                               after: Cache, r: Result<seq<byte>, KmsError>) {
    && r == uncached
    && (if r.Success? then after != [] && after[|after| - 1] == (key, CacheEntry(r.value, expiresAt))
        else after == seen)
  }

  /** What a call makes of its arguments: a blank tenant or an empty blob is a ValueError that touches nothing. A live
      entry of the key answers, unless a refresh is forced; failing that, attestation and proxy do. */
  lemma DecryptExactly(digest: seq<byte> -> string, ttl: real, max: nat, cache: Cache, blob: seq<byte>,
                       tenantId: string, force: bool, key: string, lookupAt: real,
                       uncached: Result<seq<byte>, KmsError>, readAt: real, lockedAt: real)
    requires Unique(cache) && max > 0 && IsKey(digest, Strip(tenantId), blob, key)
    ensures var (after, r) :=
              Decrypt(digest, ttl, max, cache, blob, tenantId, force, lookupAt, uncached, readAt, lockedAt);
            if Strip(tenantId) == "" || blob == [] then r == Failure(ValueError) && after == cache
            else if force then AsksAndKeeps(cache, key, uncached, readAt + ttl, after, r)
            else
              && (forall p | IsLive(cache, key, lookupAt, p) :: r == Success(p))
              && ((forall p :: !IsLive(cache, key, lookupAt, p)) ==>
                    AsksAndKeeps(Purge(cache, lookupAt), key, uncached, readAt + ttl, after, r))
  {
    LiveAnswers(cache, key, lookupAt);
    if uncached.Success? {
      StoredLast(cache, max, key, uncached.value, readAt + ttl, lockedAt);
      StoredLast(Purge(cache, lookupAt), max, key, uncached.value, readAt + ttl, lockedAt);
    }
  }
}
