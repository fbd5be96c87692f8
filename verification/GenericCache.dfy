/** GenericCache (generic.go): the objects, the two constructors and the calls that go through encryption. */
module Generic {
  import opened GoNumbers
  import opened Entries
  import opened StoreSpec
  import opened InMemory
  import opened Crypto
  import opened GenericSpec

  class GenericCache {
    const cache: InMemoryStore?
    const readCache: GenericCache?
    const p: Params

    /** The wall clock, the same for the cache and its pools. */
    const clock: Clock

    /** Where Exists ends up looking. */
    function Reader(): GenericCache {
      if readCache == null then this else readCache
    }

    /** The shape both constructors build: a read side has no read side of its own. */
    ghost predicate Shaped() {
      && p.Good() && (cache != null ==> cache.clock == clock)
      && (readCache != null ==>
            && readCache.readCache == null && readCache.p.Good() && readCache.clock == clock
            && (readCache.cache != null ==> readCache.cache.clock == clock))
    }

    ghost predicate Ready()
      reads if cache == null then {} else {cache.lru}
    {
      cache != null ==> cache.Valid()
    }

    /** NewCacheWithPool. */
    constructor WithPool(pool: InMemoryStore?, secret: Bytes, expirySeconds: int64, encrypt: bool,
                         cipher: Cipher, codec: Codec, clock: Clock)
      requires cipher.Invertible() && codec.Faithful() && (pool != null ==> pool.clock == clock)
      ensures cache == pool && readCache == null && Shaped() && this.clock == clock
      ensures p == Params(secret, Wrap64(expirySeconds * SECOND), encrypt, cipher, codec)
    {
      cache := pool;
      readCache := null;
      this.clock := clock;
      p := Params(secret, Wrap64(expirySeconds * SECOND), encrypt, cipher, codec);
    }

    /** NewCacheWithMultiPools: writes go to one pool, Exists reads the other with the same parameters. */
    constructor WithMultiPools(writePool: InMemoryStore?, readPool: InMemoryStore?, secret: Bytes,
                               expirySeconds: int64, encrypt: bool, cipher: Cipher, codec: Codec, clock: Clock)
      requires cipher.Invertible() && codec.Faithful()
      requires (writePool != null ==> writePool.clock == clock) && (readPool != null ==> readPool.clock == clock)
      ensures cache == writePool && readCache != null && readCache.cache == readPool && Shaped()
      ensures this.clock == clock
      ensures p == readCache.p == Params(secret, Wrap64(expirySeconds * SECOND), encrypt, cipher, codec)
    {
      cache := writePool;
      readCache := new GenericCache.WithPool(readPool, secret, expirySeconds, encrypt, cipher, codec, clock);
      this.clock := clock;
      p := Params(secret, Wrap64(expirySeconds * SECOND), encrypt, cipher, codec);
    }

    method Set(k: Key, g: Given, exp: int64) returns (r: Reply, ghost gone: set<Key>)
      requires Shaped() && Ready()
      modifies clock, if cache == null then {} else {cache.lru}
      ensures Ready() && old(clock.t) <= clock.t
      ensures cache == null ==> r == Failed(NoCache)
      ensures cache != null ==>
                (cache.lru.m, r) == CacheSet(p, cache.Cfg(), old(cache.lru.m), k, g, exp, clock.t, gone)
    {
      gone := {};
      if cache == null {
        return Failed(NoCache), gone;
      }
      var t := if exp != 0 then exp else p.defaultExp;
      var data := g;
      if p.encrypt && g.Wrapped? {
        var encoded := p.codec.encode(g.e.data);
        if encoded.None? {
          return Failed(EncodeFailed), gone;
        }
        var encrypted := EncryptEntry(p.cipher, p.secret, encoded.value);
        if encrypted.Failure? {
          return Failed(encrypted.error), gone;
        }
        var sealed := NewEntry(Raw(encrypted.value), exp);
        data := Wrapped(sealed);
      }
      r, gone := cache.Set(k, data, t);
    }

    /** NewGenericCacheEntry: one more clock reading, whose stamps the in-memory store overwrites. */
    method NewEntry(v: Value, exp: int64) returns (e: Entry)
      modifies clock
      ensures old(clock.t) <= clock.t
      ensures e == Entry(v, Unix(clock.t), Wrap64(Unix(clock.t) + TruncDiv(Chosen(p, exp), SECOND)))
    {
      var now := clock.Now();
      e := Entry(v, Unix(now), Wrap64(Unix(now) + TruncDiv(Chosen(p, exp), SECOND)));
    }

    /** Get into a *GenericCacheEntry. */
    method Get(k: Key) returns (r: Reply)
      requires Shaped() && Ready()
      modifies clock, if cache == null then {} else {cache.lru}
      ensures Ready() && old(clock.t) <= clock.t
      ensures cache == null ==> r == Failed(NoCache)
      ensures cache != null ==> (cache.lru.m, r) == CacheGet(p, old(cache.lru.m), k, clock.t)
    {
      if cache == null {
        return Failed(NoCache);
      }
      r := cache.Get(k, WantEntry);
      if !r.HitEntry? || !p.encrypt {
        return;
      }
      var entry := r.e;
      if !entry.data.Raw? {
        return Panicked;
      }
      match DecryptEntry(p.cipher, p.secret, entry.data.b)
      case Panic => r := Panicked;
      case Failure(err) => r := Failed(err);
      case Success(b) =>
        var decoded := p.codec.decode(b);
        r := if decoded.None? then Failed(DecodeFailed) else HitEntry(entry.(data := decoded.value));
    }

    /** Exists hands over to the read side when there is one; that side has none, so the call ends. */
    method Exists(k: Key) returns (found: bool, r: Reply)
      requires Shaped() && Ready() && Reader().Ready()
      modifies clock, var c := Reader(); if c.cache == null then {} else {c.cache.lru}
      ensures Reader().Ready() && old(clock.t) <= clock.t
      ensures found <==> r.HitEntry?
      ensures var c := Reader();
              && (c.cache == null ==> r == Failed(NoCache))
              && (c.cache != null ==> (c.cache.lru.m, r) == CacheGet(c.p, old(c.cache.lru.m), k, clock.t))
      decreases readCache != null
    {
      if readCache != null {
        found, r := readCache.Exists(k);
        return;
      }
      r := Get(k);
      found := r.HitEntry?;
    }

    method Delete(k: Key) returns (r: Reply)
      requires Shaped() && Ready()
      modifies if cache == null then {} else {cache.lru}
      ensures Ready()
      ensures cache == null ==> r == Failed(NoCache)
      ensures cache != null ==>
                (cache.lru.m, r) == Step(cache.Cfg(), old(cache.lru.m), Event(StoreSpec.Delete(k), clock.t, {}))
    {
      if cache == null {
        return Failed(NoCache);
      }
      r := cache.Delete(k);
    }

    method Flush() returns (r: Reply)
      requires Ready()
      modifies if cache == null then {} else {cache.lru}
      ensures Ready()
      ensures r == if cache == null then Failed(NoCache) else Done
      ensures cache != null ==> cache.lru.m == map[]
    {
      if cache == null {
        return Failed(NoCache);
      }
      r := cache.Flush();
    }

    /** AddExistingEntry: never encrypts, reads the clock once more than the store does, panics without a store. */
    method AddExistingEntry(k: Key, e: Entry, expiresAt: int64)
      returns (r: Reply, ghost first: int, ghost gone: set<Key>)
      requires Shaped() && Ready()
      modifies clock, if cache == null then {} else {cache.lru}
      ensures Ready() && old(clock.t) <= first <= clock.t
      ensures cache == null ==> r == Panicked
      ensures cache != null ==>
                && r == Done
                && cache.lru.m == Admit(old(cache.lru.m), k,
                                        Stamp(Wrapped(e), Remaining(expiresAt, first), cache.defaultExp, clock.t), gone)
    {
      var now := clock.Now();
      first, gone := now, {};
      if cache == null {
        return Panicked, first, gone;
      }
      var exp := Remaining(expiresAt, now);
      r, gone := cache.Set(k, Wrapped(e), exp);
    }
  }

  /**
   * A cache built over two pools that hold the same contents and share a clock: with the clock unmoved, Exists
   * (through the read side) finds a key exactly when Get on the outer cache succeeds, with the same entry.
   */
  method ExistsAgreesWithGet(c: GenericCache, k: Key) returns (found: bool, seen: Reply, got: Reply)
    requires c.Shaped() && c.Ready() && c.readCache != null && c.readCache.Ready() && c.p == c.readCache.p
    requires c.cache != null && c.readCache.cache != null
    requires c.cache.lru.m == c.readCache.cache.lru.m
    modifies c.cache.lru, c.readCache.cache.lru, c.clock
    ensures c.clock.t == old(c.clock.t) ==> seen == got && (found <==> got.HitEntry?)
  {
    found, seen := c.Exists(k);
    got := c.Get(k);
  }
}
