/** A `decrypt_data_key` call that nothing interrupts, as steps of the protocol: what the object's method does is what
    its clock readings, lock regions and proxy call do one after the other. */
module KmsCalls {
  import opened Results
  import opened Bytes
  import opened OrderedDict
  import opened PyStr
  import opened KmsCache
  import opened KmsProtocol

  /** The rest of a call that has not found its key: the proxy call, and on success the two clock readings, `toRead` and
      then `toStore` seconds later, with the store. */
  function MissSteps(t: nat, result: Result<seq<byte>, KmsError>, toRead: real, toStore: real): (steps: seq<Step>) {
    if result.Failure? then [CallProxy(t, result)]
    else [CallProxy(t, result), Tick(toRead), ReadDeadline(t), Tick(toStore), Store(t)]
  }

  /** A whole call that begins in this state. */
  function CallSteps(cfg: Config, s: State, t: nat, q: Query, result: Result<seq<byte>, KmsError>, toRead: real,
                     toStore: real): (steps: seq<Step>) {
    if q.force then [BeginRefresh(t, q)] + MissSteps(t, result, toRead, toStore)
    else if LookupCache(s.cache, KeyOf(cfg, q.tenant, q.blob), s.now).1.Some? then [BeginLookup(t, q), Lookup(t)]
    else [BeginLookup(t, q), Lookup(t)] + MissSteps(t, result, toRead, toStore)
  }

  lemma RunOne(cfg: Config, s: State, a: Step)
    requires Enabled(s, a)
    ensures CanRun(cfg, s, [a]) && Run(cfg, s, [a]) == Apply(cfg, s, a)
  {
    assert [a][1..] == [];
    assert Run(cfg, Apply(cfg, s, a), []) == Apply(cfg, s, a);
  }

  lemma RunTwo(cfg: Config, s: State, a: Step, b: Step)
    requires Enabled(s, a) && Enabled(Apply(cfg, s, a), b)
    ensures CanRun(cfg, s, [a, b]) && Run(cfg, s, [a, b]) == Apply(cfg, Apply(cfg, s, a), b)
  {
    assert [a, b][1..] == [b];
    RunOne(cfg, Apply(cfg, s, a), b);
  }

  lemma RunThree(cfg: Config, s: State, a: Step, b: Step, c: Step)
    requires Enabled(s, a) && Enabled(Apply(cfg, s, a), b) && Enabled(Apply(cfg, Apply(cfg, s, a), b), c)
    ensures CanRun(cfg, s, [a, b, c])
    ensures Run(cfg, s, [a, b, c]) == Apply(cfg, Apply(cfg, Apply(cfg, s, a), b), c)
  {
    assert [a, b, c][1..] == [b, c];
    RunTwo(cfg, Apply(cfg, s, a), b, c);
  }

  lemma {:induction false} RunJoin(cfg: Config, s: State, first: seq<Step>, second: seq<Step>)
    requires CanRun(cfg, s, first) && CanRun(cfg, Run(cfg, s, first), second)
    ensures CanRun(cfg, s, first + second)
    ensures Run(cfg, s, first + second) == Run(cfg, Run(cfg, s, first), second)
    decreases |first|
  {
    if first == [] {
      assert first + second == second;
    } else {
      assert (first + second)[1..] == first[1..] + second;
      RunJoin(cfg, Apply(cfg, s, first[0]), first[1..], second);
    }
  }

  /** The call of thread `t` is over at this time: it returned this value, and left the cache like this. */
  ghost predicate Finished(s: State, s': State, t: nat, q: Query, value: Result<seq<byte>, KmsError>, cache: Cache,
                           now: real) {
    && s'.threads == s.threads - {t} && s'.cache == cache && s'.now == now
    && |s'.outcomes| == |s.outcomes| + 1 && s'.outcomes[..|s.outcomes|] == s.outcomes
    && s'.outcomes[|s.outcomes|].q == q && s'.outcomes[|s.outcomes|].value == value
  }

  /** The thread stands at `phase` at this time, and has returned nothing. */
  ghost predicate Reached(s: State, s': State, t: nat, phase: Phase, cache: Cache, now: real) {
    s'.threads == s.threads[t := phase] && s'.cache == cache && s'.now == now && s'.outcomes == s.outcomes
  }

  lemma DeadlineRun(cfg: Config, s: State, t: nat, plaintext: seq<byte>, toRead: real)
    requires t in s.threads && s.threads[t].AtProxy? && toRead >= 0.0
    ensures var steps := [CallProxy(t, Success(plaintext)), Tick(toRead), ReadDeadline(t)];
            && CanRun(cfg, s, steps)
            && Reached(s, Run(cfg, s, steps), t,
                       AtStore(s.threads[t].q, plaintext, |s.history.calls|, s.now + toRead), s.cache, s.now + toRead)
  {
    var s1 := Apply(cfg, s, CallProxy(t, Success(plaintext)));
    var s2 := Apply(cfg, s1, Tick(toRead));
    assert s2.threads[t].Answered?;
    RunThree(cfg, s, CallProxy(t, Success(plaintext)), Tick(toRead), ReadDeadline(t));
  }

  lemma StoreRun(cfg: Config, s: State, t: nat, toStore: real)
    requires t in s.threads && s.threads[t].AtStore? && toStore >= 0.0
    ensures var AtStore(q, plaintext, _, readAt) := s.threads[t];
            var steps := [Tick(toStore), Store(t)];
            && CanRun(cfg, s, steps)
            && Finished(s, Run(cfg, s, steps), t, q, Success(plaintext),
                        StoreInCache(s.cache, cfg.max, KeyOf(cfg, q.tenant, q.blob), plaintext, readAt + cfg.ttl,
                                     s.now + toStore), s.now + toStore)
  {
    RunTwo(cfg, s, Tick(toStore), Store(t));
  }

  /** What a call that asked the proxy leaves of the cache it has seen. */
  function Kept(cfg: Config, seen: Cache, q: Query, result: Result<seq<byte>, KmsError>, readAt: real,
                storedAt: real): Cache {
    if result.Failure? then seen
    else StoreInCache(seen, cfg.max, KeyOf(cfg, q.tenant, q.blob), result.value, readAt + cfg.ttl, storedAt)
  }

  function TimeAfter(s: State, result: Result<seq<byte>, KmsError>, toRead: real, toStore: real): real {
    if result.Failure? then s.now else s.now + toRead + toStore
  }

  lemma MissRun(cfg: Config, s: State, t: nat, result: Result<seq<byte>, KmsError>, toRead: real, toStore: real)
    requires t in s.threads && s.threads[t].AtProxy? && toRead >= 0.0 && toStore >= 0.0
    ensures var q, steps := s.threads[t].q, MissSteps(t, result, toRead, toStore);
            && CanRun(cfg, s, steps)
            && Finished(s, Run(cfg, s, steps), t, q, result,
                        Kept(cfg, s.cache, q, result, s.now + toRead, s.now + toRead + toStore),
                        TimeAfter(s, result, toRead, toStore))
  {
    if result.Failure? {
      RunOne(cfg, s, CallProxy(t, result));
    } else {
      var front := [CallProxy(t, Success(result.value)), Tick(toRead), ReadDeadline(t)];
      DeadlineRun(cfg, s, t, result.value, toRead);
      StoreRun(cfg, Run(cfg, s, front), t, toStore);
      RunJoin(cfg, s, front, [Tick(toStore), Store(t)]);
      assert MissSteps(t, result, toRead, toStore) == front + [Tick(toStore), Store(t)];
    }
  }

  lemma HitRun(cfg: Config, s: State, t: nat, q: Query)
    requires t !in s.threads && !q.force
    requires LookupCache(s.cache, KeyOf(cfg, q.tenant, q.blob), s.now).1.Some?
    ensures var steps := [BeginLookup(t, q), Lookup(t)];
            var (cache, found) := LookupCache(s.cache, KeyOf(cfg, q.tenant, q.blob), s.now);
            CanRun(cfg, s, steps) && Finished(s, Run(cfg, s, steps), t, q, Success(found.value), cache, s.now)
    ensures var s' := Run(cfg, s, [BeginLookup(t, q), Lookup(t)]);
            s'.history == s.history && s'.outcomes[|s.outcomes|].origin.FromCache?
  {
    RunTwo(cfg, s, BeginLookup(t, q), Lookup(t));
  }

  /** Up to the proxy call. */
  lemma BeginsMiss(cfg: Config, s: State, t: nat, q: Query, seen: Cache)
    requires t !in s.threads
    requires if q.force then seen == s.cache
             else LookupCache(s.cache, KeyOf(cfg, q.tenant, q.blob), s.now) == (seen, None)
    ensures var steps := if q.force then [BeginRefresh(t, q)] else [BeginLookup(t, q), Lookup(t)];
            CanRun(cfg, s, steps) && Reached(s, Run(cfg, s, steps), t, AtProxy(q), seen, s.now)
  {
    if q.force {
      RunOne(cfg, s, BeginRefresh(t, q));
    } else {
      RunTwo(cfg, s, BeginLookup(t, q), Lookup(t));
    }
  }

  lemma FinishedSince(s: State, mid: State, end: State, t: nat, q: Query, seen: Cache,
                      value: Result<seq<byte>, KmsError>, cache: Cache, now: real)
    requires t !in s.threads && Reached(s, mid, t, AtProxy(q), seen, s.now)
    requires Finished(mid, end, t, q, value, cache, now)
    ensures Finished(s, end, t, q, value, cache, now)
  {
    assert s.threads[t := AtProxy(q)] - {t} == s.threads;
    assert s.threads - {t} == s.threads;
  }

  /** A call that does not find its key, or does not look. */
  lemma MissedCall(cfg: Config, s: State, t: nat, q: Query, result: Result<seq<byte>, KmsError>, toRead: real,
                   toStore: real, seen: Cache)
    requires t !in s.threads && toRead >= 0.0 && toStore >= 0.0
    requires if q.force then seen == s.cache
             else LookupCache(s.cache, KeyOf(cfg, q.tenant, q.blob), s.now) == (seen, None)
    ensures var steps := CallSteps(cfg, s, t, q, result, toRead, toStore);
            && CanRun(cfg, s, steps)
            && Finished(s, Run(cfg, s, steps), t, q, result,
                        Kept(cfg, seen, q, result, s.now + toRead, s.now + toRead + toStore),
                        TimeAfter(s, result, toRead, toStore))
  {
    var front := if q.force then [BeginRefresh(t, q)] else [BeginLookup(t, q), Lookup(t)];
    BeginsMiss(cfg, s, t, q, seen);
    var s' := Run(cfg, s, front);
    MissRun(cfg, s', t, result, toRead, toStore);
    RunJoin(cfg, s, front, MissSteps(t, result, toRead, toStore));
    FinishedSince(s, s', Run(cfg, s', MissSteps(t, result, toRead, toStore)), t, q, seen, result,
                  Kept(cfg, seen, q, result, s.now + toRead, s.now + toRead + toStore),
                  TimeAfter(s, result, toRead, toStore));
  }

  lemma FoundCall(cfg: Config, s: State, t: nat, q: Query, result: Result<seq<byte>, KmsError>, toRead: real,
                  toStore: real, seen: Cache, plaintext: seq<byte>)
    requires t !in s.threads && !q.force
    requires LookupCache(s.cache, KeyOf(cfg, q.tenant, q.blob), s.now) == (seen, Some(plaintext))
    ensures var steps := CallSteps(cfg, s, t, q, result, toRead, toStore);
            CanRun(cfg, s, steps) && Finished(s, Run(cfg, s, steps), t, q, Success(plaintext), seen, s.now)
  {
    HitRun(cfg, s, t, q);
  }

  /** `DecryptDataKey`, with the preimage of its key already hashed. */
  lemma DecryptByKey(cfg: Config, cache: Cache, blob: seq<byte>, tenantId: string, force: bool, lookupAt: real,
                     result: Result<seq<byte>, KmsError>, readAt: real, lockedAt: real)
    requires Strip(tenantId) != "" && blob != []
    ensures var q := Query(Strip(tenantId), blob, force);
            var (seen, found) := LookupCache(cache, KeyOf(cfg, q.tenant, q.blob), lookupAt);
            Decrypt(cfg.digest, cfg.ttl, cfg.max, cache, blob, tenantId, force, lookupAt, result, readAt, lockedAt)
            == if !force && found.Some? then (seen, Success(found.value))
               else (Kept(cfg, if force then cache else seen, q, result, readAt, lockedAt), result)
  {
  }

  /** A call of an idle thread that nothing interrupts returns what `DecryptDataKey` returns for the clock values it
      reads, and leaves the cache as it does. */
  lemma CallAloneIsDecrypt(cfg: Config, s: State, t: nat, blob: seq<byte>, tenantId: string, force: bool,
                           result: Result<seq<byte>, KmsError>, toRead: real, toStore: real)
    requires t !in s.threads && Strip(tenantId) != "" && blob != [] && toRead >= 0.0 && toStore >= 0.0
    ensures var q := Query(Strip(tenantId), blob, force);
            var steps := CallSteps(cfg, s, t, q, result, toRead, toStore);
            var (cache, value) := Decrypt(cfg.digest, cfg.ttl, cfg.max, s.cache, blob, tenantId, force, s.now, result,
                                          s.now + toRead, s.now + toRead + toStore);
            CanRun(cfg, s, steps) && Finished(s, Run(cfg, s, steps), t, q, value, cache, Run(cfg, s, steps).now)
  {
    var q := Query(Strip(tenantId), blob, force);
    var (seen, found) := LookupCache(s.cache, KeyOf(cfg, q.tenant, q.blob), s.now);
    DecryptByKey(cfg, s.cache, blob, tenantId, force, s.now, result, s.now + toRead, s.now + toRead + toStore);
    if !force && found.Some? {
      FoundCall(cfg, s, t, q, result, toRead, toStore, seen, found.value);
    } else {
      MissedCall(cfg, s, t, q, result, toRead, toStore, if force then s.cache else seen);
    }
  }
}
