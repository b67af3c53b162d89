/** What clearing the key cache forgets. */
module KmsClearing {
  import opened Results
  import opened Bytes
  import opened OrderedDict
  import opened KmsCache
  import opened KmsProtocol
  import opened KmsCalls

  // ----- stores -----

  /** Every entry stems from a store after the first `n`. */
  ghost predicate StoredSince(s: State, n: nat) {
    n <= |s.history.stores| && forall x | x in s.cache :: x.0 in s.source && s.source[x.0] >= n
  }

  /** So do the hits after the first `m` outcomes. */
  ghost predicate HitsSince(s: State, n: nat, m: nat) {
    forall i | m <= i < |s.outcomes| :: s.outcomes[i].origin.FromCache? ==> s.outcomes[i].origin.stored >= n
  }

  lemma LookupStoresSince(cfg: Config, s: State, t: nat, n: nat, m: nat)
    requires InUseOrder(s.cache, s.lastUse, s.steps) && Enabled(s, Lookup(t)) && StoredSince(s, n) && HitsSince(s, n, m)
    ensures StoredSince(DoLookup(cfg, s, t), n) && HitsSince(DoLookup(cfg, s, t), n, m)
  {
    var AtLookup(q, readAt) := s.threads[t];
    var key := KeyOf(cfg, q.tenant, q.blob);
    LookupShape(s.cache, key, readAt, s.lastUse, s.steps);
    var found := LookupCache(s.cache, key, readAt).1;
    if found.Some? {
      var e :| (key, e) in s.cache && e.plaintext == found.value;
    }
  }

  lemma StoreStoresSince(cfg: Config, s: State, t: nat, n: nat, m: nat)
    requires InUseOrder(s.cache, s.lastUse, s.steps) && Enabled(s, Store(t)) && StoredSince(s, n) && HitsSince(s, n, m)
    ensures StoredSince(DoStore(cfg, s, t), n) && HitsSince(DoStore(cfg, s, t), n, m)
  {
    var AtStore(q, plaintext, call, readAt) := s.threads[t];
    StoreShape(s.cache, cfg.max, KeyOf(cfg, q.tenant, q.blob), plaintext, readAt + cfg.ttl, s.now, s.lastUse, s.steps);
  }

  lemma StepStoresSince(cfg: Config, s: State, step: Step, n: nat, m: nat)
    requires InUseOrder(s.cache, s.lastUse, s.steps) && Enabled(s, step) && StoredSince(s, n) && HitsSince(s, n, m)
    ensures StoredSince(Apply(cfg, s, step), n) && HitsSince(Apply(cfg, s, step), n, m)
  {
    match step
    case Lookup(t) => LookupStoresSince(cfg, s, t, n, m);
    case Store(t) => StoreStoresSince(cfg, s, t, n, m);
    case Size => PurgeKeepsOrder(s.cache, s.now, s.lastUse, s.steps);
    case _ =>
  }

  lemma {:induction false} RunStoresSince(cfg: Config, s: State, steps: seq<Step>, n: nat, m: nat)
    requires Inv(cfg, s) && CanRun(cfg, s, steps) && StoredSince(s, n) && HitsSince(s, n, m)
    ensures HitsSince(Run(cfg, s, steps), n, m)
    decreases |steps|
  {
    if steps != [] {
      StepStoresSince(cfg, s, steps[0], n, m);
      StepKeepsInv(cfg, s, steps[0]);
      RunStoresSince(cfg, Apply(cfg, s, steps[0]), steps[1..], n, m);
    }
  }

  /** `clear_cache` empties the cache: in whatever follows it, every hit stems from a store made after it. */
  lemma ClearForgets(cfg: Config, s: State, steps: seq<Step>)
    requires Inv(cfg, s) && CanRun(cfg, s, [Clear] + steps)
    ensures HitsSince(Run(cfg, s, [Clear] + steps), |s.history.stores|, |s.outcomes|)
  {
    assert ([Clear] + steps)[1..] == steps;
    StepKeepsInv(cfg, s, Clear);
    RunStoresSince(cfg, Apply(cfg, s, Clear), steps, |s.history.stores|, |s.outcomes|);
  }

  // ----- proxy calls -----

  /** The store wrote the result of a proxy call after the first `n`. */
  predicate CalledSince(h: History, i: nat, n: nat) {
    i < |h.stores| && h.stores[i].call >= n
  }

  /** The hits after the first `m` outcomes stem from proxy calls after the first `n`. */
  ghost predicate FreshCalls(s: State, n: nat, m: nat) {
    forall i | m <= i < |s.outcomes| ::
      s.outcomes[i].origin.FromCache? ==> CalledSince(s.history, s.outcomes[i].origin.stored, n)
  }

  /** An entry with this deadline is of no use any more: no look-up of the key has read, or can still read, an earlier
      time. */
  ghost predicate Doomed(cfg: Config, s: State, key: string, deadline: real) {
    && deadline <= s.now
    && forall u | u in s.threads && s.threads[u].AtLookup? ::
         KeyOf(cfg, s.threads[u].q.tenant, s.threads[u].q.blob) == key ==> deadline <= s.threads[u].readAt
  }

  /** A thread carries a plaintext that it may still put into the cache in time for a look-up to find it. */
  ghost predicate Lingers(cfg: Config, s: State, t: nat) {
    t in s.threads &&
    match s.threads[t]
    case Answered(_, _, _) => true
    case AtStore(q, _, _, readAt) => !Doomed(cfg, s, KeyOf(cfg, q.tenant, q.blob), readAt + cfg.ttl)
    case _ => false
  }

  ghost predicate PhaseOk(cfg: Config, s: State, phase: Phase, n: nat) {
    match phase
    case Answered(_, _, call) => call >= n
    case AtStore(q, _, call, readAt) => call >= n || Doomed(cfg, s, KeyOf(cfg, q.tenant, q.blob), readAt + cfg.ttl)
    case _ => true
  }

  ghost predicate EntryOk(cfg: Config, s: State, x: (string, CacheEntry), n: nat) {
    (x.0 in s.source && CalledSince(s.history, s.source[x.0], n)) || Doomed(cfg, s, x.0, x.1.expiresAt)
  }

  /** Whatever is cached or about to be stems from a later call, or is of no use any more. */
  ghost predicate Forgotten(cfg: Config, s: State, n: nat) {
    && n <= |s.history.calls|
    && (forall t | t in s.threads :: PhaseOk(cfg, s, s.threads[t], n))
    && (forall x | x in s.cache :: EntryOk(cfg, s, x, n))
  }

  /** The clock only advances and new look-ups read it, so what is of no use stays so. */
  lemma StaysDoomed(cfg: Config, s: State, s': State, key: string, deadline: real)
    requires Doomed(cfg, s, key, deadline) && s.now <= s'.now
    requires forall u | u in s'.threads && s'.threads[u].AtLookup? ::
               (u in s.threads && s.threads[u] == s'.threads[u]) || s'.threads[u].readAt >= s.now
    ensures Doomed(cfg, s', key, deadline)
  {
  }

  /** A step after which the same, or less, is cached and known, and at most one thread has moved on. */
  lemma QuietStep(cfg: Config, s: State, s': State, n: nat)
    requires Forgotten(cfg, s, n) && s.now <= s'.now && s'.source == s.source
    requires s.history.calls <= s'.history.calls && s'.history.stores == s.history.stores
    requires forall x | x in s'.cache :: x in s.cache
    requires forall u | u in s'.threads ::
               (u in s.threads && s.threads[u] == s'.threads[u])
               || (s'.threads[u].AtLookup? && s'.threads[u].readAt >= s.now)
               || (!s'.threads[u].AtLookup? && PhaseOk(cfg, s', s'.threads[u], n))
    ensures Forgotten(cfg, s', n)
  {
    forall t | t in s'.threads ensures PhaseOk(cfg, s', s'.threads[t], n) {
      if t in s.threads && s.threads[t] == s'.threads[t] {
        assert PhaseOk(cfg, s, s.threads[t], n);
        match s.threads[t]
        case AtStore(q, _, call, readAt) =>
          if call < n { StaysDoomed(cfg, s, s', KeyOf(cfg, q.tenant, q.blob), readAt + cfg.ttl); }
        case _ =>
      }
    }
    forall x | x in s'.cache ensures EntryOk(cfg, s', x, n) {
      assert EntryOk(cfg, s, x, n);
      if Doomed(cfg, s, x.0, x.1.expiresAt) { StaysDoomed(cfg, s, s', x.0, x.1.expiresAt); }
    }
  }

  lemma LookupForgets(cfg: Config, s: State, t: nat, n: nat, m: nat)
    requires Inv(cfg, s) && Enabled(s, Lookup(t)) && Forgotten(cfg, s, n) && FreshCalls(s, n, m)
    ensures Forgotten(cfg, DoLookup(cfg, s, t), n) && FreshCalls(DoLookup(cfg, s, t), n, m)
  {
    var AtLookup(q, readAt) := s.threads[t];
    var key := KeyOf(cfg, q.tenant, q.blob);
    LookupShape(s.cache, key, readAt, s.lastUse, s.steps);
    QuietStep(cfg, s, DoLookup(cfg, s, t), n);
    var found := LookupCache(s.cache, key, readAt).1;
    if found.Some? {
      var e :| (key, e) in s.cache && e.plaintext == found.value && readAt < e.expiresAt;
      assert EntryOk(cfg, s, (key, e), n);
    }
  }

  /** A store leaves the clock and the other threads alone. */
  lemma StoreKeepsDoom(cfg: Config, s: State, t: nat, key: string, deadline: real)
    requires Enabled(s, Store(t)) && Doomed(cfg, s, key, deadline)
    ensures Doomed(cfg, DoStore(cfg, s, t), key, deadline)
  {
    StaysDoomed(cfg, s, DoStore(cfg, s, t), key, deadline);
  }

  lemma StoreForgetsPhase(cfg: Config, s: State, t: nat, u: nat, n: nat)
    requires Enabled(s, Store(t)) && u in s.threads && PhaseOk(cfg, s, s.threads[u], n)
    ensures PhaseOk(cfg, DoStore(cfg, s, t), s.threads[u], n)
  {
    match s.threads[u]
    case AtStore(r, _, c, at) =>
      if c < n { StoreKeepsDoom(cfg, s, t, KeyOf(cfg, r.tenant, r.blob), at + cfg.ttl); }
    case _ =>
  }

  lemma NewEntryOk(cfg: Config, s: State, t: nat, n: nat)
    requires Enabled(s, Store(t)) && PhaseOk(cfg, s, s.threads[t], n)
    ensures var AtStore(q, plaintext, _, readAt) := s.threads[t];
            EntryOk(cfg, DoStore(cfg, s, t),
                    (KeyOf(cfg, q.tenant, q.blob), CacheEntry(plaintext, readAt + cfg.ttl)), n)
  {
    var AtStore(q, _, call, readAt) := s.threads[t];
    if call < n { StoreKeepsDoom(cfg, s, t, KeyOf(cfg, q.tenant, q.blob), readAt + cfg.ttl); }
  }

  lemma OldEntryOk(cfg: Config, s: State, t: nat, x: (string, CacheEntry), n: nat)
    requires Enabled(s, Store(t)) && EntryOk(cfg, s, x, n)
    requires x.0 != KeyOf(cfg, s.threads[t].q.tenant, s.threads[t].q.blob)
    ensures EntryOk(cfg, DoStore(cfg, s, t), x, n)
  {
    if Doomed(cfg, s, x.0, x.1.expiresAt) { StoreKeepsDoom(cfg, s, t, x.0, x.1.expiresAt); }
  }

  lemma StoreForgetsEntry(cfg: Config, s: State, t: nat, x: (string, CacheEntry), n: nat)
    requires InUseOrder(s.cache, s.lastUse, s.steps) && Enabled(s, Store(t)) && PhaseOk(cfg, s, s.threads[t], n)
    requires x in DoStore(cfg, s, t).cache && (x in s.cache ==> EntryOk(cfg, s, x, n))
    ensures EntryOk(cfg, DoStore(cfg, s, t), x, n)
  {
    var AtStore(q, plaintext, _, readAt) := s.threads[t];
    var key := KeyOf(cfg, q.tenant, q.blob);
    StoreShape(s.cache, cfg.max, key, plaintext, readAt + cfg.ttl, s.now, s.lastUse, s.steps);
    if x == (key, CacheEntry(plaintext, readAt + cfg.ttl)) {
      NewEntryOk(cfg, s, t, n);
    } else {
      OldEntryOk(cfg, s, t, x, n);
    }
  }

  lemma StoreKeepsFreshCalls(cfg: Config, s: State, t: nat, n: nat, m: nat)
    requires Enabled(s, Store(t)) && FreshCalls(s, n, m)
    ensures FreshCalls(DoStore(cfg, s, t), n, m)
  {
  }

  lemma StoreForgets(cfg: Config, s: State, t: nat, n: nat)
    requires InUseOrder(s.cache, s.lastUse, s.steps) && Enabled(s, Store(t)) && Forgotten(cfg, s, n)
    ensures Forgotten(cfg, DoStore(cfg, s, t), n)
  {
    var s' := DoStore(cfg, s, t);
    assert PhaseOk(cfg, s, s.threads[t], n);
    forall x | x in s'.cache ensures EntryOk(cfg, s', x, n) {
      StoreForgetsEntry(cfg, s, t, x, n);
    }
    forall u | u in s'.threads ensures PhaseOk(cfg, s', s'.threads[u], n) {
      assert PhaseOk(cfg, s, s.threads[u], n);
      StoreForgetsPhase(cfg, s, t, u, n);
    }
  }

  lemma CountedForgets(cfg: Config, s: State, steps: nat, n: nat, m: nat)
    requires Forgotten(cfg, s, n) && FreshCalls(s, n, m)
    ensures Forgotten(cfg, s.(steps := steps), n) && FreshCalls(s.(steps := steps), n, m)
  {
    QuietStep(cfg, s, s.(steps := steps), n);
  }

  /** Neither a look-up nor a store. */
  lemma OtherStepForgets(cfg: Config, s: State, step: Step, n: nat, m: nat)
    requires Inv(cfg, s) && Enabled(s, step) && !step.Lookup? && !step.Store?
    requires Forgotten(cfg, s, n) && FreshCalls(s, n, m)
    ensures Forgotten(cfg, Apply(cfg, s, step), n) && FreshCalls(Apply(cfg, s, step), n, m)
  {
    if step.ReadDeadline? {
      assert PhaseOk(cfg, s, s.threads[step.thread], n);
    } else if step.Size? {
      PurgeKeepsOrder(s.cache, s.now, s.lastUse, s.steps);
    }
    QuietStep(cfg, s, Apply(cfg, s, step), n);
  }

  lemma StepForgets(cfg: Config, s: State, step: Step, n: nat, m: nat)
    requires Inv(cfg, s) && Enabled(s, step) && Forgotten(cfg, s, n) && FreshCalls(s, n, m)
    ensures Forgotten(cfg, Apply(cfg, s, step), n) && FreshCalls(Apply(cfg, s, step), n, m)
  {
    match step
    case Lookup(t) =>
      LookupForgets(cfg, s, t, n, m);
      CountedForgets(cfg, DoLookup(cfg, s, t), s.steps + 1, n, m);
    case Store(t) =>
      StoreForgets(cfg, s, t, n);
      StoreKeepsFreshCalls(cfg, s, t, n, m);
      CountedForgets(cfg, DoStore(cfg, s, t), s.steps + 1, n, m);
    case _ => OtherStepForgets(cfg, s, step, n, m);
  }

  lemma {:induction false} RunForgets(cfg: Config, s: State, steps: seq<Step>, n: nat, m: nat)
    requires Inv(cfg, s) && CanRun(cfg, s, steps) && Forgotten(cfg, s, n) && FreshCalls(s, n, m)
    ensures FreshCalls(Run(cfg, s, steps), n, m)
    decreases |steps|
  {
    if steps != [] {
      StepForgets(cfg, s, steps[0], n, m);
      StepKeepsInv(cfg, s, steps[0]);
      RunForgets(cfg, Apply(cfg, s, steps[0]), steps[1..], n, m);
    }
  }

  // ----- a thread that lingers is heard of again -----

  lemma FreshNumber(keys: set<nat>) returns (u: nat)
    ensures forall k | k in keys :: k < u
    decreases keys
  {
    if keys == {} {
      u := 0;
    } else {
      var k :| k in keys;
      u := FreshNumber(keys - {k});
      if k >= u { u := k + 1; }
      assert keys == (keys - {k}) + {k};
    }
  }

  lemma StoreInEmpty(max: nat, key: string, plaintext: seq<byte>, expiresAt: real, now: real)
    requires max > 0
    ensures StoreInCache([], max, key, plaintext, expiresAt, now) == [(key, CacheEntry(plaintext, expiresAt))]
  {
    var empty: Cache := [];
    assert Purge(empty, now) == empty && Remove(empty, key) == empty;
  }

  lemma HitOnOnly(key: string, e: CacheEntry, readAt: real)
    requires readAt < e.expiresAt
    ensures LookupCache([(key, e)], key, readAt).1 == Some(e.plaintext)
  {
    assert [(key, e)][1..] == [];
    assert Purge([(key, e)], readAt) == [(key, e)];
  }

  /** Two threads of one key on an empty cache, one about to store, the other about to look up in time. */
  ghost predicate AboutToMeet(cfg: Config, s: State, t: nat, u: nat, call: nat) {
    && s.cache == [] && t in s.threads && u in s.threads && s.threads[t].AtStore? && s.threads[u].AtLookup?
    && s.threads[t].call == call
    && KeyOf(cfg, s.threads[u].q.tenant, s.threads[u].q.blob) == KeyOf(cfg, s.threads[t].q.tenant, s.threads[t].q.blob)
    && s.threads[u].readAt < s.threads[t].readAt + cfg.ttl
  }

  lemma StoreThenHit(cfg: Config, s: State, t: nat, u: nat, call: nat)
    requires cfg.max > 0 && AboutToMeet(cfg, s, t, u, call)
    ensures CanRun(cfg, s, [Store(t), Lookup(u)])
    ensures var s' := Run(cfg, s, [Store(t), Lookup(u)]);
            && |s'.outcomes| > |s.outcomes| && s'.outcomes[|s'.outcomes| - 1].origin.FromCache?
            && var i := s'.outcomes[|s'.outcomes| - 1].origin.stored;
               i < |s'.history.stores| && s'.history.stores[i].call == call
  {
    var AtStore(q, plaintext, _, readAt) := s.threads[t];
    var key := KeyOf(cfg, q.tenant, q.blob);
    StoreInEmpty(cfg.max, key, plaintext, readAt + cfg.ttl, s.now);
    HitOnOnly(key, CacheEntry(plaintext, readAt + cfg.ttl), s.threads[u].readAt);
    RunTwo(cfg, s, Store(t), Lookup(u));
  }

  /** Steps by which a thread that lingers and a look-up come to meet, once the cache has been cleared. */
  lemma Meeting(cfg: Config, s: State, t: nat) returns (steps: seq<Step>, u: nat)
    requires cfg.ttl > 0.0 && Lingers(cfg, s, t) && s.cache == []
    ensures CanRun(cfg, s, steps) && AboutToMeet(cfg, Run(cfg, s, steps), t, u, s.threads[t].call)
    ensures Run(cfg, s, steps).outcomes == s.outcomes
  {
    var q := s.threads[t].q.(force := false);
    u := FreshNumber(s.threads.Keys);
    if s.threads[t].Answered? {
      steps := [ReadDeadline(t), BeginLookup(u, q)];
      RunTwo(cfg, s, ReadDeadline(t), BeginLookup(u, q));
    } else if s.now < s.threads[t].readAt + cfg.ttl {
      steps := [BeginLookup(u, q)];
      RunOne(cfg, s, BeginLookup(u, q));
    } else {
      steps := [];
      u :| u in s.threads && s.threads[u].AtLookup?
           && KeyOf(cfg, s.threads[u].q.tenant, s.threads[u].q.blob) == KeyOf(cfg, q.tenant, q.blob)
           && s.threads[u].readAt < s.threads[t].readAt + cfg.ttl;
    }
  }

  lemma LingeringIsHit(cfg: Config, s: State, t: nat, n: nat, m: nat) returns (steps: seq<Step>)
    requires cfg.max > 0 && cfg.ttl > 0.0 && Lingers(cfg, s, t) && s.cache == []
    requires s.threads[t].call < n && m <= |s.outcomes|
    ensures CanRun(cfg, s, steps) && !FreshCalls(Run(cfg, s, steps), n, m)
  {
    var front, u := Meeting(cfg, s, t);
    var s' := Run(cfg, s, front);
    StoreThenHit(cfg, s', t, u, s.threads[t].call);
    steps := front + [Store(t), Lookup(u)];
    RunJoin(cfg, s, front, [Store(t), Lookup(u)]);
    var last := Run(cfg, s, steps);
    assert !CalledSince(last.history, last.outcomes[|last.outcomes| - 1].origin.stored, n);
  }

  // ----- exactly -----

  /** Every hit after this clear stems from a proxy call made after it. */
  ghost predicate ClearIsFinal(cfg: Config, s: State) {
    forall steps | CanRun(cfg, s, [Clear] + steps) ::
      FreshCalls(Run(cfg, s, [Clear] + steps), |s.history.calls|, |s.outcomes|)
  }

  lemma AfterClear(cfg: Config, s: State, steps: seq<Step>)
    ensures CanRun(cfg, s, [Clear] + steps) <==> CanRun(cfg, Apply(cfg, s, Clear), steps)
    ensures CanRun(cfg, s, [Clear] + steps) ==>
              Run(cfg, s, [Clear] + steps) == Run(cfg, Apply(cfg, s, Clear), steps)
  {
    assert ([Clear] + steps)[1..] == steps;
  }

  lemma ClearedIsForgotten(cfg: Config, s: State)
    requires Inv(cfg, s) && forall t :: !Lingers(cfg, s, t)
    ensures Forgotten(cfg, Apply(cfg, s, Clear), |s.history.calls|)
  {
    var s' := Apply(cfg, s, Clear);
    forall t | t in s'.threads ensures PhaseOk(cfg, s', s'.threads[t], |s.history.calls|) {
      assert !Lingers(cfg, s, t);
      match s.threads[t]
      case AtStore(q, _, _, readAt) => StaysDoomed(cfg, s, s', KeyOf(cfg, q.tenant, q.blob), readAt + cfg.ttl);
      case _ =>
    }
  }

  /** After `clear_cache`, exactly when no key fetched before it is served any more: when no thread still carries one
      that it can put back in time for some look-up. */
  lemma ClearIsFinalExactly(cfg: Config, s: State)
    requires Inv(cfg, s)
    ensures ClearIsFinal(cfg, s) <==> forall t :: !Lingers(cfg, s, t)
  {
    var n, m, cleared := |s.history.calls|, |s.outcomes|, Apply(cfg, s, Clear);
    if forall t :: !Lingers(cfg, s, t) {
      ClearedIsForgotten(cfg, s);
      StepKeepsInv(cfg, s, Clear);
      forall steps | CanRun(cfg, s, [Clear] + steps) ensures FreshCalls(Run(cfg, s, [Clear] + steps), n, m) {
        AfterClear(cfg, s, steps);
        RunForgets(cfg, cleared, steps, n, m);
      }
    } else {
      var t :| Lingers(cfg, s, t);
      LingersOn(cfg, s, t);
      var steps := LingeringIsHit(cfg, cleared, t, n, m);
      AfterClear(cfg, s, steps);
    }
  }

  lemma LingersOn(cfg: Config, s: State, t: nat)
    requires Inv(cfg, s) && Lingers(cfg, s, t)
    ensures Lingers(cfg, Apply(cfg, s, Clear), t) && s.threads[t].call < |s.history.calls|
  {
    assert ThreadFits(s.history, s.threads[t], s.now);
    var s' := Apply(cfg, s, Clear);
    if s.threads[t].AtStore? {
      var key, deadline := KeyOf(cfg, s.threads[t].q.tenant, s.threads[t].q.blob), s.threads[t].readAt + cfg.ttl;
      assert Doomed(cfg, s', key, deadline) ==> Doomed(cfg, s, key, deadline);
    }
  }
}
