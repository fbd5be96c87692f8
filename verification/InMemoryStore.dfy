/** The store itself (inmemory.go): methods over a shared bounded map, proved against StoreSpec. */
module InMemory {
  import opened GoNumbers
  import opened Counters
  import opened Entries
  import opened StoreSpec

  /** The wall clock.  Every reading may be later than the one before, never earlier. */
  class Clock {
    var t: int

    constructor (start: int)
      ensures t == start
    {
      t := start;
    }

    method Now() returns (now: int)
      modifies this
      ensures old(t) <= t && now == t
    {
      now :| t <= now;
      t := now;
    }
  }

  /**
   * The contract of the ARC cache the store is built on: a bounded map whose Add may drop other keys to make
   * room.  Which ones is left open; callers learn them only as the ghost result `gone`.
   */
  class ArcCache {
    const size: nat
    var m: Resident

    ghost predicate Valid()
      reads this
    {
      0 < size && |m| <= size
    }

    constructor (size: nat)
      requires 0 < size
      ensures Valid() && m == map[] && this.size == size
    {
      this.size := size;
      m := map[];
    }

    method Get(k: Key) returns (e: Entry, ok: bool)
      ensures ok <==> k in m
      ensures ok ==> e == m[k]
    {
      ok := k in m;
      e := if ok then m[k] else Entry(Str(""), 0, 0);
    }

    method Add(k: Key, e: Entry) returns (ghost gone: set<Key>)
      requires Valid()
      modifies this
      ensures Valid() && m == Admit(old(m), k, e, gone)
      ensures MakesRoom(size, old(m), k, gone)
    {
      if k !in m && |m| == size {
        var victim :| victim in m;
        assert m.Keys - {victim} == (m - {victim}).Keys;
        assert |m.Keys - {victim}| == size - 1;
        m := m - {victim};
        gone := {victim};
      } else {
        gone := {};
      }
      assert k in m ==> m[k := e].Keys == m.Keys;
      m := m[k := e];
    }

    method Remove(k: Key)
      requires Valid()
      modifies this
      ensures Valid() && m == old(m) - {k}
    {
      FewerKeys(m - {k}, m);
      m := m - {k};
    }

    method Keys() returns (ks: seq<Key>)
      ensures Lists(ks, m)
    {
      ks := [];
      var rest := m.Keys;
      while rest != {}
        invariant forall i, j :: 0 <= i < j < |ks| ==> ks[i] != ks[j]
        invariant forall k :: k in m <==> k in ks || k in rest
        invariant forall k :: k in ks ==> k !in rest
        decreases rest
      {
        var k :| k in rest;
        ks := ks + [k];
        rest := rest - {k};
      }
    }

    method Len() returns (n: nat)
      ensures n == |m|
    {
      n := |m|;
    }

    method Purge()
      requires Valid()
      modifies this
      ensures Valid() && m == map[]
    {
      m := map[];
    }
  }

  /**
   * Each method is one transition of StoreSpec: the new contents and the reply are those of Step, taken with
   * the clock reading the method left behind and the victims the bounded map chose.
   */
  class InMemoryStore {
    const lru: ArcCache
    const clock: Clock
    const defaultExp: int64

    ghost predicate Valid()
      reads lru
    {
      lru.Valid()
    }

    ghost function Cfg(): Config {
      Config(lru.size, defaultExp)
    }

    /** From contents m at instant t, one legal event with this operation leads here and answers r. */
    ghost predicate Did(m: Resident, t: int, op: Op, gone: set<Key>, r: Reply)
      reads lru, clock
    {
      var ev := Event(op, clock.t, gone);
      Legal(Cfg(), State(m, t), ev) && (lru.m, r) == Step(Cfg(), m, ev)
    }

    constructor (maxEntries: nat, defaultExp: int64, clock: Clock)
      requires 0 < maxEntries
      ensures Valid() && fresh(lru) && lru.m == map[]
      ensures this.clock == clock && Cfg() == Config(maxEntries, defaultExp)
    {
      this.lru := new ArcCache(maxEntries);
      this.clock := clock;
      this.defaultExp := defaultExp;
    }

    /** Reads the clock only for entries that can expire. */
    method IsExpired(e: Entry) returns (b: bool)
      modifies clock
      ensures old(clock.t) <= clock.t && b == Expired(e, clock.t)
    {
      if e.expiresAt == 0 {
        return false;
      }
      var now := clock.Now();
      b := e.expiresAt * SECOND < now;
    }

    method Get(k: Key, want: Want) returns (r: Reply)
      requires Valid()
      modifies lru, clock
      ensures Valid() && Did(old(lru.m), old(clock.t), StoreSpec.Get(k, want), {}, r)
    {
      var e, ok := lru.Get(k);
      if !ok {
        return Failed(CacheMiss);
      }
      var expired := IsExpired(e);
      if expired {
        lru.Remove(k);
        return Failed(CacheMiss);
      }
      match want
      case WantString => r := if e.data.Str? then HitValue(e.data) else Panicked;
      case WantInt => r := if e.data.Int? then HitValue(e.data) else Panicked;
      case WantEntry => r := HitEntry(e);
      case WantPage => r := if e.data.Page? then HitValue(e.data) else Panicked;
      case WantOther => r := Failed(NotSupported);
    }

    method ExpiresAt(exp: int64, now: int) returns (at: int64)
      ensures at == ExpiryFor(exp, defaultExp, now)
    {
      if exp == FOREVER {
        at := 0;
      } else if exp != 0 {
        at := Wrap64(Unix(now) + TruncDiv(exp, SECOND));
      } else {
        at := Wrap64(Unix(now) + TruncDiv(defaultExp, SECOND));
      }
    }

    method DoAddSet(k: Key, g: Given, exp: int64) returns (r: Reply, ghost gone: set<Key>)
      requires Valid()
      modifies lru, clock
      ensures Valid() && old(clock.t) <= clock.t && r == Done
      ensures lru.m == Admit(old(lru.m), k, Stamp(g, exp, defaultExp, clock.t), gone)
      ensures MakesRoom(lru.size, old(lru.m), k, gone)
    {
      var now := clock.Now();
      var seconds := Unix(now);
      var expiresAt := ExpiresAt(exp, now);
      if g.Bare? {
        gone := lru.Add(k, Entry(g.v, seconds, expiresAt));
      } else {
        gone := lru.Add(k, Entry(g.e.data, seconds, expiresAt));
      }
      r := Done;
    }

    method Set(k: Key, g: Given, exp: int64) returns (r: Reply, ghost gone: set<Key>)
      requires Valid()
      modifies lru, clock
      ensures Valid() && Did(old(lru.m), old(clock.t), StoreSpec.Set(k, g, exp), gone, r)
    {
      r, gone := DoAddSet(k, g, exp);
    }

    method Add(k: Key, g: Given, exp: int64) returns (r: Reply, ghost gone: set<Key>)
      requires Valid()
      modifies lru, clock
      ensures Valid() && Did(old(lru.m), old(clock.t), StoreSpec.Add(k, g, exp), gone, r)
    {
      gone := {};
      var _, ok := lru.Get(k);
      if ok {
        return Failed(NotStored), gone;
      }
      r, gone := DoAddSet(k, g, exp);
    }

    method Replace(k: Key, g: Given, exp: int64) returns (r: Reply, ghost gone: set<Key>)
      requires Valid()
      modifies lru, clock
      ensures Valid() && Did(old(lru.m), old(clock.t), StoreSpec.Replace(k, g, exp), gone, r)
    {
      gone := {};
      var _, ok := lru.Get(k);
      if ok {
        r, gone := DoAddSet(k, g, exp);
        return;
      }
      r := Failed(NotStored);
    }

    method Update(k: Key, e: Entry) returns (r: Reply, ghost gone: set<Key>)
      requires Valid()
      modifies lru
      ensures Valid() && Did(old(lru.m), old(clock.t), StoreSpec.Update(k, e), gone, r)
    {
      gone := {};
      var _, ok := lru.Get(k);
      if ok {
        gone := lru.Add(k, e);
        return Done, gone;
      }
      r := Failed(NotStored);
    }

    method Delete(k: Key) returns (r: Reply)
      requires Valid()
      modifies lru
      ensures Valid() && Did(old(lru.m), old(clock.t), StoreSpec.Delete(k), {}, r)
    {
      var _, ok := lru.Get(k);
      if ok {
        lru.Remove(k);
        return Done;
      }
      r := Failed(CacheMiss);
    }

    method Increment(k: Key, n: uint64) returns (r: Reply, ghost gone: set<Key>)
      requires Valid()
      modifies lru
      ensures Valid() && Did(old(lru.m), old(clock.t), Tally(k, Inc(n)), gone, r)
    {
      gone := {};
      var e, ok := lru.Get(k);
      if !ok {
        return Failed(CacheMiss), gone;
      }
      if !e.data.Int? {
        return Failed(NotSupported), gone;
      }
      var v := Wrap64(e.data.i + Wrap64(n));
      gone := lru.Add(k, e.(data := Int(v)));
      r := Counted(AsUint64(v));
    }

    method Decrement(k: Key, n: uint64) returns (r: Reply, ghost gone: set<Key>)
      requires Valid()
      modifies lru
      ensures Valid() && Did(old(lru.m), old(clock.t), Tally(k, Dec(n)), gone, r)
    {
      gone := {};
      var e, ok := lru.Get(k);
      if !ok {
        return Failed(CacheMiss), gone;
      }
      if !e.data.Int? {
        return Failed(NotSupported), gone;
      }
      var v: int64;
      if Wrap64(n) > e.data.i {
        v := 0;
      } else {
        v := Wrap64(e.data.i - Wrap64(n));
      }
      gone := lru.Add(k, e.(data := Int(v)));
      r := Counted(AsUint64(v));
    }

    method Flush() returns (r: Reply)
      requires Valid()
      modifies lru
      ensures Valid() && Did(old(lru.m), old(clock.t), StoreSpec.Flush, {}, r)
    {
      lru.Purge();
      r := Done;
    }

    method Keys() returns (ks: seq<Key>)
      ensures Lists(ks, lru.m)
    {
      ks := lru.Keys();
    }

    method Len() returns (n: nat)
      requires Valid()
      ensures n == |lru.m| <= lru.size
    {
      n := lru.Len();
    }

    /** One turn of the sweep loop. */
    method SweepKey(k: Key)
      requires Valid()
      modifies lru, clock
      ensures Valid() && old(clock.t) <= clock.t
      ensures lru.m == StepVisit(old(lru.m), Visit(k, clock.t))
    {
      var e, ok := lru.Get(k);
      if ok {
        var expired := IsExpired(e);
        if expired {
          lru.Remove(k);
        }
      }
    }

    /** The sweep loop: each listed key once, at readings that never go back. */
    method SweepKeys() returns (ghost visits: seq<Visit>)
      requires Valid()
      modifies lru, clock
      ensures Valid() && old(clock.t) <= clock.t
      ensures GoodVisits(old(lru.m), visits, old(clock.t), clock.t)
      ensures lru.m == StepSweep(old(lru.m), visits)
    {
      var keys := lru.Keys();
      visits := [];
      var i := 0;
      while i < |keys|
        invariant 0 <= i <= |keys| && Valid()
        invariant lru.m == StepSweep(old(lru.m), visits)
        invariant KeysOf(visits) == keys[..i] && Paced(visits, old(clock.t), clock.t)
        invariant old(clock.t) <= clock.t
      {
        ghost var before := clock.t;
        SweepKey(keys[i]);
        VisitAppends(old(lru.m), visits, Visit(keys[i], clock.t), old(clock.t), before);
        visits := visits + [Visit(keys[i], clock.t)];
        i := i + 1;
      }
      assert keys[..i] == keys;
    }

    /**
     * DeleteExpired, run without other clients while the clock may advance: nothing that was expired when
     * it began is left, only entries expired by its end are gone, and survivors are untouched.
     */
    method DeleteExpired() returns (ghost visits: seq<Visit>)
      requires Valid()
      modifies lru, clock
      ensures Valid() && Did(old(lru.m), old(clock.t), Sweep(visits), {}, Done)
      ensures Swept(old(lru.m), lru.m, old(clock.t), clock.t)
    {
      visits := SweepKeys();
      SweepIsLegal(Cfg(), old(lru.m), visits, old(clock.t), clock.t);
    }
  }

  lemma SweepIsLegal(cfg: Config, m: Resident, visits: seq<Visit>, lo: int, hi: int)
    requires lo <= hi && GoodVisits(m, visits, lo, hi)
    ensures Legal(cfg, State(m, lo), Event(Sweep(visits), hi, {}))
    ensures Swept(m, StepSweep(m, visits), lo, hi)
  {
    SweepIsExact(m, visits, lo, hi);
  }

  /**
   * The constructor function.  The underlying cache refuses a size that is not positive; a janitor is started
   * only for a store that was built with a positive cleanup interval.
   */
  method NewInMemoryStore(maxEntries: int, defaultExp: int64, cleanupInterval: int64, clock: Clock)
    returns (c: InMemoryStore?, janitor: bool)
    ensures c == null <==> maxEntries <= 0
    ensures c != null ==>
              && c.Valid() && fresh(c.lru) && c.lru.m == map[]
              && c.clock == clock && c.Cfg() == Config(maxEntries, defaultExp)
    ensures janitor <==> c != null && cleanupInterval > 0
  {
    if maxEntries <= 0 {
      return null, false;
    }
    c := new InMemoryStore(maxEntries, defaultExp, clock);
    janitor := cleanupInterval > 0;
  }
}
