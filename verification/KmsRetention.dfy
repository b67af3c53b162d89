/** How long the key cache keeps an entry. */
module KmsRetention {
  import opened Results
  import opened Bytes
  import opened OrderedDict
  import opened Recency
  import opened KmsCache
  import opened KmsProtocol

  // ----- one entry through the cache operations -----

  /** The entry is cached under the key, below exactly these newer keys. */
  ghost predicate Sits(cache: Cache, key: string, e: CacheEntry, above: set<string>) {
    Below(cache, key, above) && Get(cache, key) == Some(e)
  }

  /** Where the entry sits below these keys; or it is gone, because they fill the cache. */
  ghost predicate SitsOrGone(max: nat, cache: Cache, key: string, e: CacheEntry, above: set<string>) {
    if |above| < max then Sits(cache, key, e, above) else !Has(cache, key)
  }

  lemma {:induction false} PurgeJoin(x: Cache, y: Cache, now: real)
    ensures Purge(x + y, now) == Purge(x, now) + Purge(y, now)
  {
    if x == [] {
      assert x + y == y;
    } else {
      assert (x + y)[1..] == x[1..] + y;
      PurgeJoin(x[1..], y, now);
    }
  }

  lemma {:induction false} PurgeNames(cache: Cache, now: real)
    ensures Names(Purge(cache, now)) <= Names(cache)
  {
    if cache != [] {
      PurgeNames(cache[1..], now);
      NamesCons(cache);
      if cache[0].1.expiresAt > now {
        NamesCons(Purge(cache, now));
        assert Purge(cache, now)[1..] == Purge(cache[1..], now);
      }
    }
  }

  lemma NamesJoin(x: Cache, y: Cache)
    ensures Names(x + y) == Names(x) + Names(y)
  {
    forall k | k in Names(x + y) ensures k in Names(x) + Names(y) {
      var i :| 0 <= i < |x + y| && (x + y)[i].0 == k;
      if i < |x| { assert x[i].0 == k; } else { assert y[i - |x|].0 == k; }
    }
    forall k | k in Names(x) ensures k in Names(x + y) {
      var i :| 0 <= i < |x| && x[i].0 == k;
      assert (x + y)[i].0 == k;
    }
    forall k | k in Names(y) ensures k in Names(x + y) {
      var i :| 0 <= i < |y| && y[i].0 == k;
      assert (x + y)[|x| + i].0 == k;
    }
  }

  lemma SplitAt(cache: Cache, key: string, e: CacheEntry, above: set<string>) returns (older: Cache, newer: Cache)
    requires Unique(cache) && Sits(cache, key, e, above)
    ensures cache == older + [(key, e)] + newer && Names(newer) == above
  {
    var i: nat :| SitsBelow(cache, i, key, above);
    GetAt(cache, i);
    older, newer := cache[..i], cache[i + 1..];
  }

  lemma PurgeAround(older: Cache, key: string, e: CacheEntry, newer: Cache, now: real)
    requires now < e.expiresAt
    ensures Purge(older + [(key, e)] + newer, now) == Purge(older, now) + [(key, e)] + Purge(newer, now)
  {
    PurgeJoin(older + [(key, e)], newer, now);
    PurgeJoin(older, [(key, e)], now);
    assert Purge([(key, e)], now) == [(key, e)] by { assert [(key, e)][1..] == []; }
  }

  lemma Around(older: Cache, key: string, e: CacheEntry, newer: Cache)
    requires Unique(older + [(key, e)] + newer)
    ensures Sits(older + [(key, e)] + newer, key, e, Names(newer))
  {
    var all := older + [(key, e)] + newer;
    assert all[|older|] == (key, e) && all[|older| + 1..] == newer;
    assert SitsBelow(all, |older|, key, Names(newer));
    GetAt(all, |older|);
  }

  /** Of a list without repetitions, what is in its end is not in its beginning. */
  lemma EndsApart(older: Cache, key: string, e: CacheEntry, newer: Cache, k: string)
    requires Unique(older + [(key, e)] + newer) && k in Names(newer)
    ensures k !in Names(older) && k != key
  {
    var all := older + [(key, e)] + newer;
    var j :| 0 <= j < |newer| && newer[j].0 == k;
    assert all[|older| + 1 + j].0 == k && all[|older|].0 == key;
    forall i | 0 <= i < |older| ensures older[i].0 != k { assert all[i] == older[i]; }
  }

  lemma PurgedNewer(older: Cache, key: string, e: CacheEntry, newer: Cache, now: real)
    requires Unique(older + [(key, e)] + newer) && now < e.expiresAt
    ensures Names(Purge(newer, now)) == Names(newer) * Names(Purge(older + [(key, e)] + newer, now))
  {
    PurgeAround(older, key, e, newer, now);
    PurgeNames(older, now);
    PurgeNames(newer, now);
    NamesJoin(Purge(older, now) + [(key, e)], Purge(newer, now));
    NamesJoin(Purge(older, now), [(key, e)]);
    forall k | k in Names(newer) ensures k !in Names(older) && k != key { EndsApart(older, key, e, newer, k); }
    assert forall k :: k in Names([(key, e)]) ==> k == key;
  }

  /** A purge before its deadline leaves the entry where it is, below the newer ones that are live. */
  lemma PurgeSits(cache: Cache, now: real, key: string, e: CacheEntry, above: set<string>)
    requires Unique(cache) && Sits(cache, key, e, above) && now < e.expiresAt
    ensures Unique(Purge(cache, now)) && Sits(Purge(cache, now), key, e, above * Names(Purge(cache, now)))
  {
    var older, newer := SplitAt(cache, key, e, above);
    PurgeFacts(cache, now);
    PurgeAround(older, key, e, newer, now);
    PurgedNewer(older, key, e, newer, now);
    Around(Purge(older, now), key, e, Purge(newer, now));
  }

  lemma GetAppend(cache: Cache, other: string, v: CacheEntry, key: string)
    requires !Has(cache, other)
    ensures Get(cache + [(other, v)], key) == if key == other then Some(v) else Get(cache, key)
  {
    PutAbsent(cache, other, v);
    PutLookup(cache, other, v, key);
  }

  /** The use of a key, with a new value unless it is the one that is watched. */
  lemma UseSits(cache: Cache, used: string, v: CacheEntry, key: string, e: CacheEntry, above: set<string>)
    requires Unique(cache) && Sits(cache, key, e, above) && (used == key ==> v == e)
    ensures var r := Remove(cache, used) + [(used, v)];
            Unique(r) && Sits(r, key, e, if used == key then {} else above + {used})
  {
    RemoveUnique(cache, used);
    AppendUnique(Remove(cache, used), used, v);
    RemoveLookup(cache, used, key);
    GetAppend(Remove(cache, used), used, v, key);
    if used == key {
      UseSelf(Remove(cache, key), key, v);
    } else {
      UseOther(cache, key, above, used, v);
    }
  }

  /** The newer keys after a look-up of `used`, and after a store. */
  ghost function AboveAfterLookup(cache: Cache, used: string, now: real, key: string, above: set<string>): set<string> {
    var live := Purge(cache, now);
    if !Has(live, used) then above * Names(live) else if used == key then {} else above * Names(live) + {used}
  }

  ghost function AboveAfterStore(cache: Cache, used: string, now: real, above: set<string>): set<string> {
    above * Names(Purge(cache, now)) + {used}
  }

  lemma LookupSits(cache: Cache, used: string, now: real, key: string, e: CacheEntry, above: set<string>)
    requires Unique(cache) && Sits(cache, key, e, above) && now < e.expiresAt
    ensures Sits(LookupCache(cache, used, now).0, key, e, AboveAfterLookup(cache, used, now, key, above))
  {
    var live := Purge(cache, now);
    PurgeSits(cache, now, key, e, above);
    if Has(live, used) {
      UseSits(live, used, Get(live, used).value, key, e, above * Names(live));
    }
  }

  lemma KeepLastGet(all: Cache, max: nat, key: string)
    requires Unique(all) && Has(KeepLast(all, max), key)
    ensures Get(KeepLast(all, max), key) == Get(all, key)
  {
    var r := KeepLast(all, max);
    var j :| 0 <= j < |r| && r[j].0 == key;
    assert r[j] == all[|all| - |r| + j];
    GetAt(all, |all| - |r| + j);
    GetAt(r, j);
  }

  /** A store of another key: the entry stays exactly if fewer than `max` others are newer then. */
  lemma StoreSits(cache: Cache, max: nat, used: string, plaintext: seq<byte>, expiresAt: real, now: real, key: string,
                  e: CacheEntry, above: set<string>)
    requires Unique(cache) && |cache| <= max && Sits(cache, key, e, above) && now < e.expiresAt && used != key
    ensures SitsOrGone(max, StoreInCache(cache, max, used, plaintext, expiresAt, now), key, e,
                       AboveAfterStore(cache, used, now, above))
  {
    var live, entry := Purge(cache, now), CacheEntry(plaintext, expiresAt);
    var all, above' := Remove(live, used) + [(used, entry)], AboveAfterStore(cache, used, now, above);
    PurgeSits(cache, now, key, e, above);
    RemoveUnique(live, used);
    UseSits(live, used, entry, key, e, above * Names(live));
    Trim(all, key, above', max);
    if |above'| < max {
      BelowHas(KeepLast(all, max), key, above');
      KeepLastGet(all, max, key);
    }
  }

  // ----- over runs -----

  /** The newer keys after one more step. */
  ghost function NextAbove(cfg: Config, s: State, step: Step, key: string, above: set<string>): set<string>
    requires Enabled(s, step)
  {
    match step
    case Lookup(t) =>
      var AtLookup(q, readAt) := s.threads[t];
      AboveAfterLookup(s.cache, KeyOf(cfg, q.tenant, q.blob), readAt, key, above)
    case Store(t) => AboveAfterStore(s.cache, KeyOf(cfg, s.threads[t].q.tenant, s.threads[t].q.blob), s.now, above)
    case Size => above * Names(Purge(s.cache, s.now))
    case _ => above
  }

  /** At every point of the run, fewer than `max` other keys have been used since `key` was and are still cached. */
  ghost predicate Uncrowded(cfg: Config, s: State, steps: seq<Step>, key: string, above: set<string>)
    requires CanRun(cfg, s, steps)
    decreases |steps|
  {
    && |above| < cfg.max
    && (steps == [] ||
        Uncrowded(cfg, Apply(cfg, s, steps[0]), steps[1..], key, NextAbove(cfg, s, steps[0], key, above)))
  }

  predicate CachedThroughout(cfg: Config, s: State, steps: seq<Step>, key: string)
    requires CanRun(cfg, s, steps)
    decreases |steps|
  {
    Has(s.cache, key) && (steps == [] || CachedThroughout(cfg, Apply(cfg, s, steps[0]), steps[1..], key))
  }

  /** The step neither clears the cache nor stores under `key`. */
  predicate Spares(cfg: Config, s: State, step: Step, key: string)
    requires Enabled(s, step)
  {
    step != Clear && (step.Store? ==> KeyOf(cfg, s.threads[step.thread].q.tenant, s.threads[step.thread].q.blob) != key)
  }

  predicate LeavesAlone(cfg: Config, s: State, steps: seq<Step>, key: string)
    requires CanRun(cfg, s, steps)
    decreases |steps|
  {
    steps == [] || (Spares(cfg, s, steps[0], key) && LeavesAlone(cfg, Apply(cfg, s, steps[0]), steps[1..], key))
  }

  lemma {:induction false} TimePasses(cfg: Config, s: State, steps: seq<Step>)
    requires CanRun(cfg, s, steps)
    ensures s.now <= Run(cfg, s, steps).now
    decreases |steps|
  {
    if steps != [] {
      TimePasses(cfg, Apply(cfg, s, steps[0]), steps[1..]);
    }
  }

  lemma FewNewer(cache: Cache, max: nat, key: string, e: CacheEntry, above: set<string>)
    requires Unique(cache) && |cache| <= max && Sits(cache, key, e, above)
    ensures SitsOrGone(max, cache, key, e, above)
  {
    FewAbove(cache, key, above);
  }

  /** The cache after a store step, and the newer keys, in terms of what the thread stores. */
  lemma StoreStep(cfg: Config, s: State, t: nat, key: string, above: set<string>)
    returns (used: string, plaintext: seq<byte>, expiresAt: real)
    requires Enabled(s, Store(t)) && Spares(cfg, s, Store(t), key)
    ensures used != key && Apply(cfg, s, Store(t)).cache
                           == StoreInCache(s.cache, cfg.max, used, plaintext, expiresAt, s.now)
    ensures NextAbove(cfg, s, Store(t), key, above) == AboveAfterStore(s.cache, used, s.now, above)
  {
    var AtStore(q, p, _, readAt) := s.threads[t];
    used, plaintext, expiresAt := KeyOf(cfg, q.tenant, q.blob), p, readAt + cfg.ttl;
  }

  lemma StoreSitsAs(cache: Cache, max: nat, used: string, plaintext: seq<byte>, expiresAt: real, now: real, key: string,
                    e: CacheEntry, above: set<string>, cache': Cache, above': set<string>)
    requires Unique(cache) && |cache| <= max && Sits(cache, key, e, above) && now < e.expiresAt && used != key
    requires cache' == StoreInCache(cache, max, used, plaintext, expiresAt, now)
    requires above' == AboveAfterStore(cache, used, now, above)
    ensures SitsOrGone(max, cache', key, e, above')
  {
    StoreSits(cache, max, used, plaintext, expiresAt, now, key, e, above);
  }

  lemma LookupStepSits(cfg: Config, s: State, t: nat, key: string, e: CacheEntry, above: set<string>)
    requires Unique(s.cache) && Enabled(s, Lookup(t)) && Sits(s.cache, key, e, above)
    requires s.threads[t].readAt < e.expiresAt
    ensures Sits(Apply(cfg, s, Lookup(t)).cache, key, e, NextAbove(cfg, s, Lookup(t), key, above))
  {
    var AtLookup(q, readAt) := s.threads[t];
    LookupSits(s.cache, KeyOf(cfg, q.tenant, q.blob), readAt, key, e, above);
  }

  /** All steps but stores leave the entry in the cache. */
  lemma OtherStepSits(cfg: Config, s: State, step: Step, key: string, e: CacheEntry, above: set<string>)
    requires Unique(s.cache) && Enabled(s, step) && Sits(s.cache, key, e, above) && s.now < e.expiresAt
    requires !step.Store? && !step.Clear? && (step.Lookup? ==> s.threads[step.thread].readAt <= s.now)
    ensures Sits(Apply(cfg, s, step).cache, key, e, NextAbove(cfg, s, step, key, above))
  {
    match step
    case Lookup(t) => LookupStepSits(cfg, s, t, key, e, above);
    case Size => PurgeSits(s.cache, s.now, key, e, above);
    case _ =>
  }

  lemma StepSits(cfg: Config, s: State, step: Step, key: string, e: CacheEntry, above: set<string>)
    requires Inv(cfg, s) && Enabled(s, step) && Sits(s.cache, key, e, above) && s.now < e.expiresAt
    requires Spares(cfg, s, step, key)
    ensures SitsOrGone(cfg.max, Apply(cfg, s, step).cache, key, e, NextAbove(cfg, s, step, key, above))
  {
    OrderIsUnique(s.cache, s.lastUse, s.steps);
    if step.Store? {
      var used, plaintext, expiresAt := StoreStep(cfg, s, step.thread, key, above);
      StoreSitsAs(s.cache, cfg.max, used, plaintext, expiresAt, s.now, key, e, above, Apply(cfg, s, step).cache,
                  NextAbove(cfg, s, step, key, above));
    } else {
      if step.Lookup? { assert ThreadFits(s.history, s.threads[step.thread], s.now); }
      OtherStepSits(cfg, s, step, key, e, above);
      StepIsBounded(cfg, s, step);
      FewNewer(Apply(cfg, s, step).cache, cfg.max, key, e, NextAbove(cfg, s, step, key, above));
    }
  }

  lemma StepIsBounded(cfg: Config, s: State, step: Step)
    requires Inv(cfg, s) && Enabled(s, step)
    ensures Unique(Apply(cfg, s, step).cache) && |Apply(cfg, s, step).cache| <= cfg.max
  {
    StepKeepsInv(cfg, s, step);
    var s' := Apply(cfg, s, step);
    OrderIsUnique(s'.cache, s'.lastUse, s'.steps);
  }

  lemma SittingFew(cfg: Config, s: State, key: string, e: CacheEntry, above: set<string>)
    requires Inv(cfg, s) && Sits(s.cache, key, e, above)
    ensures |above| < cfg.max && Has(s.cache, key)
  {
    OrderIsUnique(s.cache, s.lastUse, s.steps);
    FewAbove(s.cache, key, above);
  }

  /** Retention, exactly: through any interleaving that ends before its deadline and neither clears the cache nor stores
      its key again, an entry stays cached at every point if and only if at every point fewer than `max` other keys have
      been used since it was and are still cached. */
  lemma {:induction false} KeyRetainedExactly(cfg: Config, s: State, steps: seq<Step>, key: string, e: CacheEntry,
                                              above: set<string>)
    requires Inv(cfg, s) && CanRun(cfg, s, steps) && Sits(s.cache, key, e, above)
    requires LeavesAlone(cfg, s, steps, key) && Run(cfg, s, steps).now < e.expiresAt
    ensures CachedThroughout(cfg, s, steps, key) <==> Uncrowded(cfg, s, steps, key, above)
    ensures CachedThroughout(cfg, s, steps, key) ==> Get(Run(cfg, s, steps).cache, key) == Some(e)
    decreases |steps|
  {
    SittingFew(cfg, s, key, e, above);
    if steps != [] {
      var next, above' := Apply(cfg, s, steps[0]), NextAbove(cfg, s, steps[0], key, above);
      TimePasses(cfg, s, steps);
      StepSits(cfg, s, steps[0], key, e, above);
      StepKeepsInv(cfg, s, steps[0]);
      if |above'| < cfg.max {
        KeyRetainedExactly(cfg, next, steps[1..], key, e, above');
      }
    }
  }

  /** The key a step uses: that of a look-up which hits, or of a store. */
  function UsedKey(cfg: Config, s: State, step: Step): Option<string>
    requires Enabled(s, step)
  {
    match step
    case Lookup(t) =>
      var AtLookup(q, readAt) := s.threads[t];
      var key := KeyOf(cfg, q.tenant, q.blob);
      if LookupCache(s.cache, key, readAt).1.Some? then Some(key) else None
    case Store(t) => Some(KeyOf(cfg, s.threads[t].q.tenant, s.threads[t].q.blob))
    case _ => None
  }

  /** The keys other than `key` that a run uses. */
  function UsedOthers(cfg: Config, s: State, steps: seq<Step>, key: string): set<string>
    requires CanRun(cfg, s, steps)
    decreases |steps|
  {
    if steps == [] then {}
    else
      var used := UsedKey(cfg, s, steps[0]);
      (if used.Some? && used.value != key then {used.value} else {})
      + UsedOthers(cfg, Apply(cfg, s, steps[0]), steps[1..], key)
  }

  lemma NextAboveIsUsed(cfg: Config, s: State, step: Step, key: string, above: set<string>)
    requires Enabled(s, step) && Spares(cfg, s, step, key)
    ensures var used := UsedKey(cfg, s, step);
            NextAbove(cfg, s, step, key, above) <= above + if used.Some? && used.value != key then {used.value} else {}
  {
  }

  /** Fewer than `max` others in the whole run never crowd an entry out. */
  lemma {:induction false} FewOthers(cfg: Config, s: State, steps: seq<Step>, key: string, above: set<string>)
    requires CanRun(cfg, s, steps) && LeavesAlone(cfg, s, steps, key)
    requires |above + UsedOthers(cfg, s, steps, key)| < cfg.max
    ensures Uncrowded(cfg, s, steps, key, above)
    decreases |steps|
  {
    var all := above + UsedOthers(cfg, s, steps, key);
    SubsetSize(above, all);
    if steps != [] {
      var next, above' := Apply(cfg, s, steps[0]), NextAbove(cfg, s, steps[0], key, above);
      NextAboveIsUsed(cfg, s, steps[0], key, above);
      SubsetSize(above' + UsedOthers(cfg, next, steps[1..], key), all);
      FewOthers(cfg, next, steps[1..], key, above');
    }
  }

  lemma NewestSits(cache: Cache, key: string, e: CacheEntry)
    requires Unique(cache) && cache != [] && cache[|cache| - 1] == (key, e)
    ensures Sits(cache, key, e, {})
  {
    GetAt(cache, |cache| - 1);
    assert SitsBelow(cache, |cache| - 1, key, {});
  }

  /** So an entry that was just stored or hit is found, with its plaintext, by every look-up that has read a time before
      its deadline, through any such interleaving that uses fewer than `max` other keys. */
  lemma KeyRetention(cfg: Config, s: State, steps: seq<Step>, key: string, e: CacheEntry, readAt: real)
    requires Inv(cfg, s) && CanRun(cfg, s, steps) && LeavesAlone(cfg, s, steps, key)
    requires s.cache != [] && s.cache[|s.cache| - 1] == (key, e)
    requires Run(cfg, s, steps).now < e.expiresAt && readAt < e.expiresAt
    requires |UsedOthers(cfg, s, steps, key)| < cfg.max
    ensures LookupCache(Run(cfg, s, steps).cache, key, readAt).1 == Some(e.plaintext)
  {
    OrderIsUnique(s.cache, s.lastUse, s.steps);
    NewestSits(s.cache, key, e);
    assert {} + UsedOthers(cfg, s, steps, key) == UsedOthers(cfg, s, steps, key);
    FewOthers(cfg, s, steps, key, {});
    KeyRetainedExactly(cfg, s, steps, key, e, {});
    RunKeepsInv(cfg, s, steps);
    LiveIsHit(cfg, Run(cfg, s, steps), key, e, readAt);
  }

  lemma LiveIsHit(cfg: Config, s: State, key: string, e: CacheEntry, readAt: real)
    requires Inv(cfg, s) && Get(s.cache, key) == Some(e) && readAt < e.expiresAt
    ensures LookupCache(s.cache, key, readAt).1 == Some(e.plaintext)
  {
    OrderIsUnique(s.cache, s.lastUse, s.steps);
    PurgeFacts(s.cache, readAt);
    var live := Purge(s.cache, readAt);
    assert (key, e) in live;
    var j :| 0 <= j < |live| && live[j] == (key, e);
    GetAt(live, j);
  }
}
