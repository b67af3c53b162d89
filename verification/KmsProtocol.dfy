/** Concurrent `decrypt_data_key` calls on one client. The lock covers the cache operations only: clock readings and
    the proxy call are steps of their own, and the clock may advance between any two steps. */
module KmsProtocol {
  import opened Results
  import opened Bytes
  import opened OrderedDict
  import opened KmsCache
  import Utf8

  datatype Config = Config(digest: seq<byte> -> string, ttl: real, max: nat)

  /** A call past its argument checks: a stripped, non-empty tenant and a non-empty blob. */
  datatype Query = Query(tenant: string, blob: seq<byte>, force: bool)

  function KeyOf(cfg: Config, tenant: string, blob: seq<byte>): string {
    cfg.digest(Preimage(tenant, blob))
  }

  /** Where a thread stands inside `decrypt_data_key`. */
  datatype Phase =
    | AtLookup(q: Query, readAt: real)                              // clock read, lock not yet taken
    | AtProxy(q: Query)                                             // missed, or told to refresh
    | Answered(q: Query, plaintext: seq<byte>, call: nat)           // the proxy has answered
    | AtStore(q: Query, plaintext: seq<byte>, call: nat, readAt: real) // deadline clock read, lock not yet taken

  /** History: proxy calls, stores, and what calls returned, each with where it came from and with the time `at` which
      it happened. */
  datatype ProxyCall = ProxyCall(tenant: string, blob: seq<byte>, result: Result<seq<byte>, KmsError>, at: real)
  datatype StoreEvent = StoreEvent(key: string, call: nat, readAt: real, at: real)
  datatype Origin = FromCache(readAt: real, stored: nat) | FromProxy(call: nat)
  datatype Return = Return(q: Query, value: Result<seq<byte>, KmsError>, origin: Origin, at: real)
  datatype History = History(calls: seq<ProxyCall>, stores: seq<StoreEvent>)

  datatype State = State(
    cache: Cache,
    now: real,
    threads: map<nat, Phase>,
    history: History,
    outcomes: seq<Return>,
    source: map<string, nat>,    // the store a cached key stems from
    lastUse: map<string, nat>,   // the step at which a key was last looked up or stored
    steps: nat)

  datatype Step =
    | Tick(seconds: real)
    | BeginLookup(thread: nat, q: Query)
    | BeginRefresh(thread: nat, q: Query)
    | Lookup(thread: nat)
    | CallProxy(thread: nat, result: Result<seq<byte>, KmsError>)
    | ReadDeadline(thread: nat)
    | Store(thread: nat)
    | Clear
    | Size

  predicate Enabled(s: State, step: Step) {
    match step
    case Tick(seconds) => seconds >= 0.0
    case BeginLookup(t, q) => t !in s.threads && !q.force
    case BeginRefresh(t, q) => t !in s.threads && q.force
    case Lookup(t) => t in s.threads && s.threads[t].AtLookup?
    case CallProxy(t, _) => t in s.threads && s.threads[t].AtProxy?
    case ReadDeadline(t) => t in s.threads && s.threads[t].Answered?
    case Store(t) => t in s.threads && s.threads[t].AtStore?
    case Clear => true
    case Size => true
  }

  function DoLookup(cfg: Config, s: State, t: nat): State
    requires t in s.threads && s.threads[t].AtLookup?
  {
    var AtLookup(q, readAt) := s.threads[t];
    var key := KeyOf(cfg, q.tenant, q.blob);
    var (cache, found) := LookupCache(s.cache, key, readAt);
    if found.None? then s.(cache := cache, threads := s.threads[t := AtProxy(q)])
    else
      var stored := if key in s.source then s.source[key] else 0;
      s.(cache := cache, threads := s.threads - {t},
         outcomes := s.outcomes + [Return(q, Success(found.value), FromCache(readAt, stored), s.now)],
         lastUse := s.lastUse[key := s.steps])
  }

  function DoCallProxy(s: State, t: nat, result: Result<seq<byte>, KmsError>): State
    requires t in s.threads && s.threads[t].AtProxy?
  {
    var q := s.threads[t].q;
    var n := |s.history.calls|;
    var logged := s.(history := s.history.(calls := s.history.calls + [ProxyCall(q.tenant, q.blob, result, s.now)]));
    match result
    case Success(p) => logged.(threads := s.threads[t := Answered(q, p, n)])
    case Failure(_) =>
      logged.(threads := s.threads - {t}, outcomes := s.outcomes + [Return(q, result, FromProxy(n), s.now)])
  }

  function DoStore(cfg: Config, s: State, t: nat): State
    requires t in s.threads && s.threads[t].AtStore?
  {
    var AtStore(q, plaintext, call, readAt) := s.threads[t];
    var key := KeyOf(cfg, q.tenant, q.blob);
    s.(cache := StoreInCache(s.cache, cfg.max, key, plaintext, readAt + cfg.ttl, s.now),
       threads := s.threads - {t},
       history := s.history.(stores := s.history.stores + [StoreEvent(key, call, readAt, s.now)]),
       outcomes := s.outcomes + [Return(q, Success(plaintext), FromProxy(call), s.now)],
       source := s.source[key := |s.history.stores|],
       lastUse := s.lastUse[key := s.steps])
  }

  function Apply(cfg: Config, s: State, step: Step): State
    requires Enabled(s, step)
  {
    var next := match step
      case Tick(seconds) => s.(now := s.now + seconds)
      case BeginLookup(t, q) => s.(threads := s.threads[t := AtLookup(q, s.now)])
      case BeginRefresh(t, q) => s.(threads := s.threads[t := AtProxy(q)])
      case Lookup(t) => DoLookup(cfg, s, t)
      case CallProxy(t, result) => DoCallProxy(s, t, result)
      case ReadDeadline(t) =>
        var Answered(q, p, c) := s.threads[t];
        s.(threads := s.threads[t := AtStore(q, p, c, s.now)])
      case Store(t) => DoStore(cfg, s, t)
      case Clear => s.(cache := [])
      case Size => s.(cache := Purge(s.cache, s.now));
    next.(steps := s.steps + 1)
  }

  function Init(now: real): State {
    State([], now, map[], History([], []), [], map[], map[], 0)
  }

  predicate CanRun(cfg: Config, s: State, steps: seq<Step>)
    decreases |steps|
  {
    steps == [] || (Enabled(s, steps[0]) && CanRun(cfg, Apply(cfg, s, steps[0]), steps[1..]))
  }

  function Run(cfg: Config, s: State, steps: seq<Step>): State
    requires CanRun(cfg, s, steps)
    decreases |steps|
  {
    if steps == [] then s else Run(cfg, Apply(cfg, s, steps[0]), steps[1..])
  }

  // ----- the invariant -----

  /** The call was for this tenant and blob, had this result, and was over by then. */
  ghost predicate CallFits(h: History, call: nat, q: Query, value: Result<seq<byte>, KmsError>, until: real) {
    && call < |h.calls|
    && h.calls[call].tenant == q.tenant && h.calls[call].blob == q.blob && h.calls[call].result == value
    && h.calls[call].at <= until
  }

  /** A store wrote the result of a successful call under that call's key, with a deadline clock value read between the
      call and the store. */
  ghost predicate StoreFits(cfg: Config, h: History, i: nat) {
    && i < |h.stores|
    && h.stores[i].call < |h.calls|
    && var c := h.calls[h.stores[i].call];
       && c.result.Success? && h.stores[i].key == KeyOf(cfg, c.tenant, c.blob)
       && c.at <= h.stores[i].readAt <= h.stores[i].at
  }

  /** A cache entry is what its source store put there, deadline included. */
  ghost predicate EntryFits(cfg: Config, h: History, source: map<string, nat>, key: string, e: CacheEntry) {
    && key in source
    && StoreFits(cfg, h, source[key])
    && var st := h.stores[source[key]];
       st.key == key && h.calls[st.call].result == Success(e.plaintext) && e.expiresAt == st.readAt + cfg.ttl
  }

  ghost predicate ThreadFits(h: History, phase: Phase, now: real) {
    match phase
    case AtLookup(q, readAt) => readAt <= now
    case AtProxy(q) => true
    case Answered(q, p, c) => CallFits(h, c, q, Success(p), now)
    case AtStore(q, p, c, readAt) => readAt <= now && CallFits(h, c, q, Success(p), readAt)
  }

  /** A return is the answer of its own proxy call, or of the one whose stored result it found, before that
      store's deadline. */
  ghost predicate ReturnFits(cfg: Config, h: History, r: Return) {
    match r.origin
    case FromProxy(c) => CallFits(h, c, r.q, r.value, r.at)
    case FromCache(readAt, i) =>
      && StoreFits(cfg, h, i)
      && h.stores[i].key == KeyOf(cfg, r.q.tenant, r.q.blob)
      && h.calls[h.stores[i].call].result == r.value
      && h.stores[i].at <= r.at
      && readAt <= r.at && readAt < h.stores[i].readAt + cfg.ttl
  }

  /** The dictionary order is last-use order; so keys do not repeat. */
  ghost predicate InUseOrder(cache: Cache, lastUse: map<string, nat>, steps: nat) {
    && (forall i | 0 <= i < |cache| :: cache[i].0 in lastUse && lastUse[cache[i].0] < steps)
    && (forall i, j | 0 <= i < j < |cache| :: lastUse[cache[i].0] < lastUse[cache[j].0])
  }

  ghost predicate EntriesFit(cfg: Config, s: State) {
    forall e | e in s.cache :: EntryFits(cfg, s.history, s.source, e.0, e.1)
  }

  ghost predicate HistoryFits(cfg: Config, s: State) {
    && (forall i | 0 <= i < |s.history.stores| :: StoreFits(cfg, s.history, i) && s.history.stores[i].at <= s.now)
    && (forall t | t in s.threads :: ThreadFits(s.history, s.threads[t], s.now))
    && (forall i | 0 <= i < |s.outcomes| :: ReturnFits(cfg, s.history, s.outcomes[i]))
  }

  ghost predicate Inv(cfg: Config, s: State) {
    && cfg.max > 0 && cfg.ttl > 0.0
    && |s.cache| <= cfg.max
    && InUseOrder(s.cache, s.lastUse, s.steps)
    && EntriesFit(cfg, s)
    && HistoryFits(cfg, s)
  }

  // ----- order -----

  lemma OrderIsUnique(cache: Cache, lastUse: map<string, nat>, steps: nat)
    requires InUseOrder(cache, lastUse, steps)
    ensures Unique(cache)
  {
  }

  lemma FirstIsOldest(cache: Cache, lastUse: map<string, nat>, steps: nat, x: (string, CacheEntry))
    requires InUseOrder(cache, lastUse, steps) && cache != [] && x in cache[1..]
    ensures x.0 in lastUse && lastUse[cache[0].0] < lastUse[x.0] < steps
  {
    var j :| 0 <= j < |cache[1..]| && cache[1..][j] == x;
    assert cache[j + 1] == x;
  }

  lemma ConsKeepsOrder(first: (string, CacheEntry), rest: Cache, lastUse: map<string, nat>, steps: nat)
    requires first.0 in lastUse && lastUse[first.0] < steps && InUseOrder(rest, lastUse, steps)
    requires forall x | x in rest :: x.0 in lastUse && lastUse[first.0] < lastUse[x.0]
    ensures InUseOrder([first] + rest, lastUse, steps)
  {
    assert forall i | 0 <= i < |rest| :: rest[i] in rest;
  }

  lemma {:induction false} PurgeKeepsOrder(cache: Cache, now: real, lastUse: map<string, nat>, steps: nat)
    requires InUseOrder(cache, lastUse, steps)
    ensures InUseOrder(Purge(cache, now), lastUse, steps)
    ensures forall e | e in Purge(cache, now) :: e in cache && e.1.expiresAt > now
  {
    if cache != [] {
      var rest := Purge(cache[1..], now);
      PurgeKeepsOrder(cache[1..], now, lastUse, steps);
      if cache[0].1.expiresAt > now {
        forall x | x in rest ensures x.0 in lastUse && lastUse[cache[0].0] < lastUse[x.0] {
          FirstIsOldest(cache, lastUse, steps, x);
        }
        ConsKeepsOrder(cache[0], rest, lastUse, steps);
      }
    }
  }

  lemma SkipKeepsOrder(cache: Cache, k: nat, lastUse: map<string, nat>, steps: nat)
    requires InUseOrder(cache, lastUse, steps) && k < |cache|
    ensures InUseOrder(cache[..k] + cache[k + 1..], lastUse, steps)
  {
  }

  lemma RemoveKeepsOrder(cache: Cache, key: string, lastUse: map<string, nat>, steps: nat)
    requires InUseOrder(cache, lastUse, steps)
    ensures InUseOrder(Remove(cache, key), lastUse, steps) && !Has(Remove(cache, key), key)
    ensures forall e | e in Remove(cache, key) :: e in cache
    ensures |Remove(cache, key)| == if Has(cache, key) then |cache| - 1 else |cache|
  {
    OrderIsUnique(cache, lastUse, steps);
    RemoveUnique(cache, key);
    if Has(cache, key) {
      var k :| 0 <= k < |cache| && cache[k].0 == key;
      SkipKeepsOrder(cache, k, lastUse, steps);
      RemoveAt(cache, k);
    } else {
      RemoveAbsent(cache, key);
    }
  }

  /** Putting an item that is used right now at the end keeps the order. */
  lemma AppendKeepsOrder(cache: Cache, key: string, e: CacheEntry, lastUse: map<string, nat>, steps: nat)
    requires InUseOrder(cache, lastUse, steps) && !Has(cache, key)
    ensures InUseOrder(cache + [(key, e)], lastUse[key := steps], steps + 1)
  {
    forall i | 0 <= i < |cache| ensures cache[i].0 != key {
      assert !(cache[i].0 == key);
    }
  }

  lemma KeepLastKeepsOrder(cache: Cache, max: nat, lastUse: map<string, nat>, steps: nat)
    requires InUseOrder(cache, lastUse, steps)
    ensures InUseOrder(KeepLast(cache, max), lastUse, steps)
    ensures forall e | e in KeepLast(cache, max) :: e in cache
  {
  }

  // ----- history only grows -----

  ghost predicate Grows(h: History, h': History) {
    h.calls <= h'.calls && h.stores <= h'.stores
  }

  /** What is recorded stays fitting as the history grows and the clock advances. */
  lemma HistoryFitsLater(cfg: Config, s: State, h': History, now: real)
    requires HistoryFits(cfg, s) && EntriesFit(cfg, s) && Grows(s.history, h') && s.now <= now
    requires forall i | |s.history.stores| <= i < |h'.stores| :: StoreFits(cfg, h', i) && h'.stores[i].at <= now
    ensures HistoryFits(cfg, s.(history := h', now := now)) && EntriesFit(cfg, s.(history := h', now := now))
  {
    var h := s.history;
    forall i | 0 <= i < |h'.stores| ensures StoreFits(cfg, h', i) && h'.stores[i].at <= now {
      if i < |h.stores| { assert StoreFits(cfg, h, i); }
    }
    forall t | t in s.threads ensures ThreadFits(h', s.threads[t], now) {
      assert ThreadFits(h, s.threads[t], s.now);
    }
    forall i | 0 <= i < |s.outcomes| ensures ReturnFits(cfg, h', s.outcomes[i]) {
      assert ReturnFits(cfg, h, s.outcomes[i]);
    }
    forall e | e in s.cache ensures EntryFits(cfg, h', s.source, e.0, e.1) {
      assert EntryFits(cfg, h, s.source, e.0, e.1);
    }
  }

  // ----- every step keeps the invariant -----

  /** What a look-up leaves: entries that were there, in use order; and what it finds is one of them, not expired. */
  lemma LookupShape(cache: Cache, key: string, now: real, lastUse: map<string, nat>, steps: nat)
    requires InUseOrder(cache, lastUse, steps)
    ensures var (r, found) := LookupCache(cache, key, now);
            && |r| <= |cache|
            && InUseOrder(r, if found.Some? then lastUse[key := steps] else lastUse, steps + 1)
            && (forall x | x in r :: x in cache)
            && (found.Some? ==> exists e | (key, e) in cache :: e.plaintext == found.value && now < e.expiresAt)
  {
    var live := Purge(cache, now);
    PurgeKeepsOrder(cache, now, lastUse, steps);
    if Has(live, key) {
      var e := Get(live, key).value;
      assert (key, e) in live;
      RemoveKeepsOrder(live, key, lastUse, steps);
      AppendKeepsOrder(Remove(live, key), key, e, lastUse, steps);
    }
  }

  /** Entries may go and be reordered by use, and threads may move on, as long as the history bears them out. */
  lemma FewerEntriesKeepInv(cfg: Config, s: State, cache: Cache, lastUse: map<string, nat>, threads: map<nat, Phase>,
                            outcomes: seq<Return>)
    requires Inv(cfg, s) && |cache| <= cfg.max && InUseOrder(cache, lastUse, s.steps + 1)
    requires forall x | x in cache :: x in s.cache
    requires forall u | u in threads :: ThreadFits(s.history, threads[u], s.now)
    requires forall i | 0 <= i < |outcomes| :: ReturnFits(cfg, s.history, outcomes[i])
    ensures Inv(cfg, s.(cache := cache, lastUse := lastUse, threads := threads, outcomes := outcomes,
                        steps := s.steps + 1))
  {
  }

  /** The answer a look-up found fits: its source is in the history and its deadline had not passed. */
  lemma FoundFits(cfg: Config, s: State, q: Query, readAt: real, plaintext: seq<byte>, e: CacheEntry)
    requires Inv(cfg, s) && readAt <= s.now
    requires (KeyOf(cfg, q.tenant, q.blob), e) in s.cache && e.plaintext == plaintext && readAt < e.expiresAt
    ensures var key := KeyOf(cfg, q.tenant, q.blob);
            key in s.source
            && ReturnFits(cfg, s.history, Return(q, Success(plaintext), FromCache(readAt, s.source[key]), s.now))
  {
    assert EntryFits(cfg, s.history, s.source, KeyOf(cfg, q.tenant, q.blob), e);
  }

  lemma LookupKeepsInv(cfg: Config, s: State, t: nat)
    requires Inv(cfg, s) && t in s.threads && s.threads[t].AtLookup?
    ensures Inv(cfg, DoLookup(cfg, s, t).(steps := s.steps + 1))
  {
    var AtLookup(q, readAt) := s.threads[t];
    var key := KeyOf(cfg, q.tenant, q.blob);
    LookupShape(s.cache, key, readAt, s.lastUse, s.steps);
    assert ThreadFits(s.history, s.threads[t], s.now);
    var (cache, found) := LookupCache(s.cache, key, readAt);
    if found.None? {
      FewerEntriesKeepInv(cfg, s, cache, s.lastUse, s.threads[t := AtProxy(q)], s.outcomes);
    } else {
      var e :| (key, e) in s.cache && e.plaintext == found.value && readAt < e.expiresAt;
      FoundFits(cfg, s, q, readAt, found.value, e);
      FewerEntriesKeepInv(cfg, s, cache, s.lastUse[key := s.steps], s.threads - {t},
                          s.outcomes + [Return(q, Success(found.value), FromCache(readAt, s.source[key]), s.now)]);
    }
  }

  lemma StoreKeepsInv(cfg: Config, s: State, t: nat)
    requires Inv(cfg, s) && t in s.threads && s.threads[t].AtStore?
    ensures Inv(cfg, DoStore(cfg, s, t).(steps := s.steps + 1))
  {
    StoreKeepsOrder(cfg, s, t);
    StoreKeepsEntries(cfg, s, t);
    StoreKeepsHistory(cfg, s, t);
  }

  lemma StoreKeepsOrder(cfg: Config, s: State, t: nat)
    requires InUseOrder(s.cache, s.lastUse, s.steps) && t in s.threads && s.threads[t].AtStore?
    ensures var s' := DoStore(cfg, s, t); InUseOrder(s'.cache, s'.lastUse, s.steps + 1)
  {
    var AtStore(q, plaintext, call, readAt) := s.threads[t];
    StoreShape(s.cache, cfg.max, KeyOf(cfg, q.tenant, q.blob), plaintext, readAt + cfg.ttl, s.now, s.lastUse, s.steps);
  }

  lemma StoreKeepsHistory(cfg: Config, s: State, t: nat)
    requires Inv(cfg, s) && t in s.threads && s.threads[t].AtStore?
    ensures HistoryFits(cfg, DoStore(cfg, s, t))
  {
    var s' := DoStore(cfg, s, t);
    assert ThreadFits(s.history, s.threads[t], s.now);
    HistoryFitsLater(cfg, s, s'.history, s.now);
    assert ReturnFits(cfg, s'.history, s'.outcomes[|s.outcomes|]);
  }

  lemma StoreKeepsEntries(cfg: Config, s: State, t: nat)
    requires Inv(cfg, s) && t in s.threads && s.threads[t].AtStore?
    ensures EntriesFit(cfg, DoStore(cfg, s, t))
  {
    var AtStore(q, plaintext, call, readAt) := s.threads[t];
    var key := KeyOf(cfg, q.tenant, q.blob);
    var s' := DoStore(cfg, s, t);
    StoreShape(s.cache, cfg.max, key, plaintext, readAt + cfg.ttl, s.now, s.lastUse, s.steps);
    NewEntryFits(cfg, s, t);
    forall x | x in s'.cache ensures EntryFits(cfg, s'.history, s'.source, x.0, x.1) {
      if x != (key, CacheEntry(plaintext, readAt + cfg.ttl)) { OldEntryFits(cfg, s, t, x); }
    }
  }

  lemma NewEntryFits(cfg: Config, s: State, t: nat)
    requires Inv(cfg, s) && t in s.threads && s.threads[t].AtStore?
    ensures var AtStore(q, plaintext, call, readAt) := s.threads[t];
            var s' := DoStore(cfg, s, t);
            EntryFits(cfg, s'.history, s'.source, KeyOf(cfg, q.tenant, q.blob), CacheEntry(plaintext, readAt + cfg.ttl))
  {
    assert ThreadFits(s.history, s.threads[t], s.now);
  }

  /** What a store leaves: entries that were there under other keys, and the new one; in use order again. */
  lemma StoreShape(cache: Cache, max: nat, key: string, plaintext: seq<byte>, expiresAt: real, now: real,
                   lastUse: map<string, nat>, steps: nat)
    requires InUseOrder(cache, lastUse, steps)
    ensures var r := StoreInCache(cache, max, key, plaintext, expiresAt, now);
            && InUseOrder(r, lastUse[key := steps], steps + 1)
            && forall x | x in r :: x == (key, CacheEntry(plaintext, expiresAt)) || (x in cache && x.0 != key)
  {
    var e := CacheEntry(plaintext, expiresAt);
    var live := Purge(cache, now);
    PurgeKeepsOrder(cache, now, lastUse, steps);
    RemoveKeepsOrder(live, key, lastUse, steps);
    AppendKeepsOrder(Remove(live, key), key, e, lastUse, steps);
    KeepLastKeepsOrder(Remove(live, key) + [(key, e)], max, lastUse[key := steps], steps + 1);
    forall x | x in Remove(live, key) ensures x in cache && x.0 != key {
      KeyIsGone(Remove(live, key), key, x);
    }
  }

  lemma KeyIsGone(cache: Cache, key: string, x: (string, CacheEntry))
    requires !Has(cache, key) && x in cache
    ensures x.0 != key
  {
  }

  lemma OldEntryFits(cfg: Config, s: State, t: nat, x: (string, CacheEntry))
    requires Inv(cfg, s) && t in s.threads && s.threads[t].AtStore? && x in s.cache
    requires x.0 != KeyOf(cfg, s.threads[t].q.tenant, s.threads[t].q.blob)
    ensures var s' := DoStore(cfg, s, t); EntryFits(cfg, s'.history, s'.source, x.0, x.1)
  {
    assert EntryFits(cfg, s.history, s.source, x.0, x.1);
  }

  lemma TickKeepsInv(cfg: Config, s: State, seconds: real)
    requires Inv(cfg, s) && seconds >= 0.0
    ensures Inv(cfg, s.(now := s.now + seconds, steps := s.steps + 1))
  {
    HistoryFitsLater(cfg, s, s.history, s.now + seconds);
  }

  /** A thread starts, or reads the clock for its deadline. */
  lemma ThreadMovesKeepInv(cfg: Config, s: State, t: nat, phase: Phase)
    requires Inv(cfg, s) && ThreadFits(s.history, phase, s.now)
    ensures Inv(cfg, s.(threads := s.threads[t := phase], steps := s.steps + 1))
  {
  }

  lemma CallProxyKeepsInv(cfg: Config, s: State, t: nat, result: Result<seq<byte>, KmsError>)
    requires Inv(cfg, s) && t in s.threads && s.threads[t].AtProxy?
    ensures Inv(cfg, DoCallProxy(s, t, result).(steps := s.steps + 1))
  {
    var s' := DoCallProxy(s, t, result);
    HistoryFitsLater(cfg, s, s'.history, s.now);
    assert CallFits(s'.history, |s.history.calls|, s.threads[t].q, result, s.now);
  }

  lemma PurgeKeepsInv(cfg: Config, s: State, now: real)
    requires Inv(cfg, s)
    ensures Inv(cfg, s.(cache := Purge(s.cache, now), steps := s.steps + 1))
  {
    PurgeKeepsOrder(s.cache, now, s.lastUse, s.steps);
  }

  lemma StepKeepsInv(cfg: Config, s: State, step: Step)
    requires Inv(cfg, s) && Enabled(s, step)
    ensures Inv(cfg, Apply(cfg, s, step))
  {
    match step
    case Tick(seconds) => TickKeepsInv(cfg, s, seconds);
    case BeginLookup(t, q) => ThreadMovesKeepInv(cfg, s, t, AtLookup(q, s.now));
    case BeginRefresh(t, q) => ThreadMovesKeepInv(cfg, s, t, AtProxy(q));
    case Lookup(t) => LookupKeepsInv(cfg, s, t);
    case CallProxy(t, result) => CallProxyKeepsInv(cfg, s, t, result);
    case ReadDeadline(t) =>
      var Answered(q, p, c) := s.threads[t];
      assert ThreadFits(s.history, s.threads[t], s.now);
      ThreadMovesKeepInv(cfg, s, t, AtStore(q, p, c, s.now));
    case Store(t) => StoreKeepsInv(cfg, s, t);
    case Clear =>
    case Size => PurgeKeepsInv(cfg, s, s.now);
  }

  lemma {:induction false} RunKeepsInv(cfg: Config, s: State, steps: seq<Step>)
    requires Inv(cfg, s) && CanRun(cfg, s, steps)
    ensures Inv(cfg, Run(cfg, s, steps))
    decreases |steps|
  {
    if steps != [] {
      StepKeepsInv(cfg, s, steps[0]);
      RunKeepsInv(cfg, Apply(cfg, s, steps[0]), steps[1..]);
    }
  }
}
