/** The TTL + LRU cache of unwrapped data keys in front of the KMS proxy. */
module KmsCache {
  import opened Results
  import opened Bytes
  import opened OrderedDict
  import opened PyStr
  import Utf8

  /** `_CacheEntry`. Clock values are reals: nothing depends on how they round. */
  datatype CacheEntry = CacheEntry(plaintext: seq<byte>, expiresAt: real)

  type Cache = Dict<string, CacheEntry>

  /** What `_purge_expired_locked(now)` leaves. */
  function Purge(cache: Cache, now: real): (r: Cache)
    ensures |r| <= |cache|
  {
    if cache == [] then []
    else if cache[0].1.expiresAt <= now then Purge(cache[1..], now)
    else [cache[0]] + Purge(cache[1..], now)
  }

  function ExpiredKeys(cache: Cache, now: real): seq<string> {
    if cache == [] then []
    else if cache[0].1.expiresAt <= now then [cache[0].0] + ExpiredKeys(cache[1..], now)
    else ExpiredKeys(cache[1..], now)
  }

  function RemoveAll(cache: Cache, keys: seq<string>): Cache
    decreases keys
  {
    if keys == [] then cache else RemoveAll(Remove(cache, keys[0]), keys[1..])
  }

  /** The locked part of `_get_cached`: purge with the clock value read before, then look up. */
  function LookupCache(cache: Cache, key: string, now: real): (r: (Cache, Option<seq<byte>>)) {
    var live := Purge(cache, now);
    match Get(live, key)
    case None => (live, None)
    case Some(e) => (MoveToEnd(live, key), Some(e.plaintext))
  }

  /** The locked part of `_store_cache_entry`: the deadline comes from a first clock value, the purge from a
      second one. */
  function StoreInCache(cache: Cache, max: nat, key: string, plaintext: seq<byte>, expiresAt: real,
                        now: real): (r: Cache)
    ensures |r| <= max
  {
    KeepLast(Remove(Purge(cache, now), key) + [(key, CacheEntry(plaintext, expiresAt))], max)
  }

  /** The bytes `_build_cache_key` hashes. */
  function Preimage(tenant: string, blob: seq<byte>): (bs: seq<byte>) {
    Utf8.Encode(tenant) + [0] + blob
  }

  datatype KmsError = ValueError | ProxyError

  /** The client object, without interference. The clock values a call reads and what attestation and proxy would
      answer it are parameters. */
  class KmsClient {
    const digest: seq<byte> -> string
    const ttl: real
    const maxSize: nat
    var cache: Cache

    constructor (digest: seq<byte> -> string, ttl: real, maxSize: nat)
      requires ttl > 0.0 && maxSize > 0
      ensures this.digest == digest && this.ttl == ttl && this.maxSize == maxSize && cache == []
    {
      this.digest, this.ttl, this.maxSize, this.cache := digest, ttl, maxSize, [];
    }

    ghost predicate Valid()
      reads this
    {
      ttl > 0.0 && maxSize > 0 && Unique(cache) && |cache| <= maxSize
    }

    method PurgeExpired(now: real)
      requires Unique(cache)
      modifies this`cache
      ensures cache == Purge(old(cache), now) && Unique(cache)
    {
      PurgeByKeys(cache, now);
      PurgeFacts(cache, now);
      var expired := ExpiredKeys(cache, now);
      for i := 0 to |expired|
        invariant RemoveAll(cache, expired[i..]) == RemoveAll(old(cache), expired)
      {
        cache := Remove(cache, expired[i]);
      }
    }

    method GetCached(key: string, now: real) returns (r: Option<seq<byte>>)
      requires Valid()
      modifies this`cache
      ensures Valid()
      ensures (cache, r) == LookupCache(old(cache), key, now)
    {
      PurgeFacts(cache, now);
      PurgeExpired(now);
      var entry := Get(cache, key);
      if entry.None? { return None; }
      RemoveUnique(cache, key);
      AppendUnique(Remove(cache, key), key, entry.value);
      cache := MoveToEnd(cache, key);
      r := Some(entry.value.plaintext);
    }

    method StoreEntry(key: string, plaintext: seq<byte>, readAt: real, now: real)
      requires Valid()
      modifies this`cache
      ensures Valid()
      ensures cache == StoreInCache(old(cache), maxSize, key, plaintext, readAt + ttl, now)
    {
      PurgeExpired(now);
      var entry := CacheEntry(plaintext, readAt + ttl);
      PutLast(cache, key, entry);
      cache := Put(cache, key, entry);
      cache := MoveToEnd(cache, key);
      ghost var all := cache;
      while |cache| > maxSize
        invariant |cache| <= |all| && cache == all[|all| - |cache|..]
        invariant |cache| >= maxSize || cache == all
      {
        cache := cache[1..];
      }
    }

    method ClearCache()
      requires Valid()
      modifies this`cache
      ensures Valid() && cache == []
    {
      cache := [];
    }

    method CacheSize(now: real) returns (n: nat)
      requires Valid()
      modifies this`cache
      ensures Valid()
      ensures cache == Purge(old(cache), now) && n == |cache|
    {
      PurgeFacts(cache, now);
      PurgeExpired(now);
      n := |cache|;
    }

    /** `decrypt_data_key`: clock values `lookupAt`, `readAt` and `lockedAt` in the order the call reads them. */
    method DecryptDataKey(blob: seq<byte>, tenantId: string, forceRefresh: bool,
                          lookupAt: real, uncached: Result<seq<byte>, KmsError>, readAt: real, lockedAt: real)
      returns (r: Result<seq<byte>, KmsError>)
      requires Valid()
      modifies this`cache
      ensures Valid()
      ensures (cache, r) == Decrypt(digest, ttl, maxSize, old(cache), blob, tenantId, forceRefresh, lookupAt,
              uncached, readAt, lockedAt)
    {
      var tenant := Strip(tenantId);
      if tenant == "" { return Failure(ValueError); }
      if blob == [] { return Failure(ValueError); }
      var key := digest(Preimage(tenant, blob));
      if !forceRefresh {
        var cached := GetCached(key, lookupAt);
        if cached.Some? { return Success(cached.value); }
      }
      if uncached.Failure? { return uncached; }
      StoreEntry(key, uncached.value, readAt, lockedAt);
      r := uncached;
    }
  }

  function Decrypt(digest: seq<byte> -> string, ttl: real, max: nat, cache: Cache, blob: seq<byte>,
      tenantId: string, forceRefresh: bool,
                   lookupAt: real, uncached: Result<seq<byte>, KmsError>, readAt: real, lockedAt: real)
    : (r: (Cache, Result<seq<byte>, KmsError>))
  {
    var tenant := Strip(tenantId);
    if tenant == "" || blob == [] then (cache, Failure(ValueError))
    else
      var key := digest(Preimage(tenant, blob));
      var (seen, cached) := if forceRefresh then (cache, None) else LookupCache(cache, key, lookupAt);
      if cached.Some? then (seen, Success(cached.value))
      else if uncached.Failure? then (seen, uncached)
      else (StoreInCache(seen, max, key, uncached.value, readAt + ttl, lockedAt), uncached)
  }

  // ----- purging -----

  /** Purging keeps exactly the entries with a later deadline, in order. */
  lemma {:induction false} PurgeFacts(cache: Cache, now: real)
    requires Unique(cache)
    ensures Unique(Purge(cache, now))
    ensures forall e | e in Purge(cache, now) :: e in cache
    ensures forall e | e in cache :: e in Purge(cache, now) <==> e.1.expiresAt > now
  {
    if cache != [] {
      PurgeFacts(cache[1..], now);
      forall e | e in Purge(cache[1..], now) ensures e.0 != cache[0].0 {
        var i :| 0 <= i < |cache[1..]| && cache[1..][i] == e;
        assert cache[i + 1] == e;
      }
      assert forall e | e in cache :: e == cache[0] || e in cache[1..];
    }
  }

  lemma {:induction false} PurgeByKeys(cache: Cache, now: real)
    requires Unique(cache)
    ensures RemoveAll(cache, ExpiredKeys(cache, now)) == Purge(cache, now)
  {
    if cache != [] {
      PurgeByKeys(cache[1..], now);
      if cache[0].1.expiresAt > now {
        ExpiredKeysAreKeys(cache[1..], now);
        SkipFirst(cache[0], cache[1..], ExpiredKeys(cache[1..], now));
        assert [cache[0]] + cache[1..] == cache;
      }
    }
  }

  lemma {:induction false} ExpiredKeysAreKeys(cache: Cache, now: real)
    ensures forall k | k in ExpiredKeys(cache, now) :: Has(cache, k)
  {
    if cache != [] {
      ExpiredKeysAreKeys(cache[1..], now);
      forall k | k in ExpiredKeys(cache, now) ensures Has(cache, k) {
        if k == cache[0].0 {
          assert cache[0].0 == k;
        } else {
          assert Has(cache[1..], k);
          var i :| 0 <= i < |cache[1..]| && cache[1..][i].0 == k;
          assert cache[i + 1].0 == k;
        }
      }
    }
  }

  lemma {:induction false} SkipFirst(first: (string, CacheEntry), rest: Cache, keys: seq<string>)
    requires first.0 !in keys
    ensures RemoveAll([first] + rest, keys) == [first] + RemoveAll(rest, keys)
    decreases keys
  {
    if keys != [] {
      assert ([first] + rest)[1..] == rest;
      SkipFirst(first, Remove(rest, keys[0]), keys[1..]);
    }
  }

  // ----- the cache key -----

  predicate NulFree(bs: seq<byte>) {
    0 !in bs
  }

  /** Two requests share a preimage exactly if they are equal, or one tenant id is the other one followed by a NUL
      and more, and the blobs make up for it. */
  lemma PreimageCollision(t: seq<byte>, blob: seq<byte>, t': seq<byte>, blob': seq<byte>)
    requires |t| <= |t'|
    ensures t + [0] + blob == t' + [0] + blob'
            <==> (t == t' && blob == blob') || (t + [0] <= t' && blob == t'[|t| + 1..] + [0] + blob')
  {
    var x, y := t + [0] + blob, t' + [0] + blob';
    if t + [0] <= t' && blob == t'[|t| + 1..] + [0] + blob' {
      assert t' == t + [0] + t'[|t| + 1..];
    }
    if x == y {
      assert t == x[..|t|] == y[..|t|] == t'[..|t|];
      if |t| == |t'| {
        assert blob == x[|t| + 1..] == y[|t'| + 1..] == blob';
      } else {
        assert y[|t|] == x[|t|] == 0;
        assert t'[..|t| + 1] == t + [0];
        assert blob == x[|t| + 1..];
        assert y[|t| + 1..] == t'[|t| + 1..] + [0] + blob';
      }
    }
  }

  lemma NulFreePreimage(t: seq<byte>, blob: seq<byte>, t': seq<byte>, blob': seq<byte>)
    requires |t| <= |t'| && NulFree(t')
    requires t + [0] + blob == t' + [0] + blob'
    ensures t == t' && blob == blob'
  {
    PreimageCollision(t, blob, t', blob');
    if t + [0] <= t' { NulInside(t, t'); }
  }

  lemma NulInside(t: seq<byte>, t': seq<byte>)
    requires t + [0] <= t'
    ensures !NulFree(t')
  {
    assert t'[|t|] == (t + [0])[|t|];
  }

  /** For tenant ids without NUL the preimage identifies tenant and blob. */
  lemma PreimageInjective(tenant: string, blob: seq<byte>, tenant': string, blob': seq<byte>)
    requires NulFree(Utf8.Encode(tenant)) && NulFree(Utf8.Encode(tenant'))
    requires Preimage(tenant, blob) == Preimage(tenant', blob')
    ensures tenant == tenant' && blob == blob'
  {
    var t, t' := Utf8.Encode(tenant), Utf8.Encode(tenant');
    if |t| <= |t'| {
      NulFreePreimage(t, blob, t', blob');
    } else {
      NulFreePreimage(t', blob', t, blob);
    }
    Utf8.DecodeEncode(tenant);
    Utf8.DecodeEncode(tenant');
  }

  /** UTF-8 uses a NUL byte for the NUL character only. */
  lemma {:induction false} NulFreeText(s: string)
    ensures NulFree(Utf8.Encode(s)) <==> '\0' !in s
  {
    if s != "" {
      NulFreeText(s[1..]);
      assert s == [s[0]] + s[1..];
      assert 0 in Utf8.EncodeChar(s[0]) <==> s[0] == '\0' by {
        if s[0] == '\0' { assert Utf8.EncodeChar(s[0])[0] == 0; }
      }
    }
  }

  /** A tenant id with an inner NUL can share its cache key with another tenant's blob, under any digest. */
  lemma NulTenantsCollide()
    ensures Preimage("a", [0x62, 0, 0x63]) == Preimage("a\0b", [0x63])
    ensures Strip("a\0b") == "a\0b"
  {
    var s := "a\0b";
    assert s[1..] == ['\0', 'b'] && s[1..][1..] == ['b'] && s[1..][1..][1..] == "";
    assert Utf8.Encode(['b']) == [0x62] by { assert ['b'][1..] == ""; }
    assert Utf8.Encode(s[1..]) == [0, 0x62];
    assert Utf8.Encode(s) == [0x61, 0, 0x62];
    assert Utf8.Encode("a") == [0x61] by { assert "a"[1..] == ""; }
  }
}
