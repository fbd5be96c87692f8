/** What a GenericCache gives back of what was set, with or without encryption, and for how long. */
module CacheReadBack {
  import opened GoNumbers
  import opened Entries
  import opened StoreSpec
  import opened Crypto
  import opened GenericSpec
  import opened Transparency
  import opened ReadBack

  predicate SetsKey(t: Turn, k: Key) {
    t.call.SetEntry? && t.call.key == k
  }

  /** Nothing in the turn could drop k early, and all its clock readings are at x or before. */
  ghost predicate Spares(t: Turn, k: Key, x: int) {
    && !SetsKey(t, k) && t.call != DeleteKey(k) && !t.call.FlushAll? && k !in t.gone && t.now <= x
    && (t.call.Janitor? ==> forall v <- t.call.visits :: v.at <= x)
  }

  lemma {:induction false} SweepSpares(m: Resident, visits: seq<Visit>, k: Key, x: int)
    ensures var m' := StepSweep(m, visits);
            && (k in m' ==> k in m && m'[k] == m[k])
            && (k in m && !Expired(m[k], x) && (forall v <- visits :: v.at <= x) ==> k in m')
  {
    if |visits| > 0 {
      SweepSpares(m, visits[..|visits| - 1], k, x);
      assert visits[|visits| - 1] in visits;
    }
  }

  lemma {:induction false} TurnSpares(p: Params, cfg: Config, m: Resident, t: Turn, k: Key, x: int)
    requires p.Good() && !SetsKey(t, k)
    ensures var m' := Answer(p, cfg, m, t).0;
            && (k in m' ==> k in m && m'[k] == m[k])
            && (k in m && !Expired(m[k], x) && Spares(t, k, x) ==> k in m')
  {
    if t.call.Janitor? {
      SweepSpares(m, t.call.visits, k, x);
    }
  }

  /** From turn n on nobody sets k: it keeps its entry or is dropped, and is not dropped while it is spared. */
  lemma {:induction false} TurnsSpare(p: Params, cfg: Config, turns: seq<Turn>, n: nat, k: Key, x: int)
    requires p.Good() && n <= |turns| && forall i :: n <= i < |turns| ==> !SetsKey(turns[i], k)
    ensures var m, m' := Contents(p, cfg, turns[..n]), Contents(p, cfg, turns);
            && (k in m' ==> k in m && m'[k] == m[k])
            && (k in m && !Expired(m[k], x) && (forall i :: n <= i < |turns| ==> Spares(turns[i], k, x)) ==> k in m')
  {
    if n == |turns| {
      assert turns[..n] == turns;
    } else {
      var front := turns[..|turns| - 1];
      assert front[..n] == turns[..n];
      TurnsSpare(p, cfg, front, n, k, x);
      TurnSpares(p, cfg, Contents(p, cfg, front), turns[|turns| - 1], k, x);
    }
  }

  /** The duration that counts: the caller's, else the cache's default, else the store's. */
  function Duration(exp: int64, cacheDefault: int64, storeDefault: int64): (d: int64) {
    if exp != 0 then exp else if cacheDefault != 0 then cacheDefault else storeDefault
  }

  /** It is FOREVER, by the caller or the cache, or positive and short of overflow. */
  predicate UsualSet(p: Params, cfg: Config, exp: int64, w: int) {
    var d := Duration(exp, p.defaultExp, cfg.defaultExp);
    if d == FOREVER then SECOND <= w && w / SECOND < TWO_63 && (exp != 0 || p.defaultExp != 0) else InRange(w, d)
  }

  /** Set of an entry that can be encoded, under a secret that is long enough, or without encryption. */
  predicate Storable(p: Params, e: Entry) {
    p.encrypt ==> |p.secret| >= 16 && p.codec.encode(e.data).Some?
  }

  lemma {:induction false} SetStores(p: Params, cfg: Config, m: Resident, k: Key, e: Entry, exp: int64, w: int,
                                     gone: set<Key>, x: int)
    requires p.Good() && Storable(p, e) && UsualSet(p, cfg, exp, w)
    ensures var (m', r) := CacheSet(p, cfg, m, k, Wrapped(e), exp, w, gone);
            var d := Duration(exp, p.defaultExp, cfg.defaultExp);
            var end := if d == FOREVER then 0 else w / SECOND + d / SECOND;
            && r == Done && k in m' && m'[k].timeAdded == w / SECOND && m'[k].expiresAt == end
            && (Expired(m'[k], x) <==> d != FOREVER && x > LastInstant(w, d))
            && Disclose(p, m'[k]) == HitEntry(Entry(e.data, w / SECOND, end))
  {
    if p.encrypt {
      EntryRoundTrip(p.cipher, p.secret, p.secret, p.codec.encode(e.data).value);
    }
  }

  /**
   * What is set is what is got.  In any run of a cache, plain or encrypting, after a Set of an entry at w and no
   * later Set of its key, a Get at x returns the data that was set, the second of the Set and the second it ends, up
   * to the last instant of its duration and if nothing dropped it; afterwards it misses.  FOREVER never misses.
   */
  lemma {:induction false} SetIsGot(p: Params, cfg: Config, turns: seq<Turn>, n: nat, x: int)
    requires p.Good() && n < |turns| && turns[n].call.SetEntry?
    requires Storable(p, turns[n].call.e) && UsualSet(p, cfg, turns[n].call.exp, turns[n].now)
    requires forall i :: n < i < |turns| ==> !SetsKey(turns[i], turns[n].call.key)
    ensures var SetEntry(k, e, exp) := turns[n].call;
            var w, d := turns[n].now, Duration(exp, p.defaultExp, cfg.defaultExp);
            var got := CacheGet(p, Contents(p, cfg, turns), k, x).1;
            var spared := forall i :: n < i < |turns| ==> Spares(turns[i], k, x);
            && (d != FOREVER && x > LastInstant(w, d) ==> got == Failed(CacheMiss))
            && (d != FOREVER && x <= LastInstant(w, d) && spared ==>
                  got == HitEntry(Entry(e.data, w / SECOND, w / SECOND + d / SECOND)))
            && (d == FOREVER && spared ==> got == HitEntry(Entry(e.data, w / SECOND, 0)))
  {
    var SetEntry(k, e, exp) := turns[n].call;
    assert turns[..n + 1][..n] == turns[..n];
    SetStores(p, cfg, Contents(p, cfg, turns[..n]), k, e, exp, turns[n].now, turns[n].gone, x);
    TurnsSpare(p, cfg, turns, n + 1, k, x);
  }

  /**
   * A bare value is stored as it is even by an encrypting cache, and while it lasts a Get of it as an entry does not
   * get past decryption: it panics on what is no whole number of blocks, and reports a short secret.
   */
  lemma {:induction false} BareIsNotSealed(p: Params, cfg: Config, m: Resident, k: Key, v: Value, exp: int64, w: int,
                                           gone: set<Key>, x: int)
    requires p.Good() && p.encrypt && UsualSet(p, cfg, exp, w)
    requires var d := Duration(exp, p.defaultExp, cfg.defaultExp); d == FOREVER || x <= LastInstant(w, d)
    ensures var m' := CacheSet(p, cfg, m, k, Bare(v), exp, w, gone).0;
            var got := CacheGet(p, m', k, x).1;
            && k in m' && m'[k].data == v
            && (!v.Raw? ==> got.Panicked?)
            && (v.Raw? && |p.secret| < 16 ==> got == Failed(SecretTooShort))
            && (v.Raw? && |p.secret| >= 16 && |v.b| % 16 != 0 ==> got.Panicked?)
  {
  }
}
