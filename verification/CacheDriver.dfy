/** GenericCache objects and the run functions of Transparency meet: any calls on a new cache are such a run. */
module CacheDriver {
  import opened Entries
  import opened StoreSpec
  import opened Generic
  import opened Transparency

  /** The same call; what a sweep visits is decided when it happens. */
  predicate SameCall(a: Call, b: Call) {
    a == b || (a.Janitor? && b.Janitor?)
  }

  method CallCache(c: GenericCache, call: Call) returns (r: Reply, ghost t: Turn)
    requires c.Shaped() && c.Ready() && c.cache != null && c.readCache == null
    modifies c.clock, c.cache.lru
    ensures c.Ready() && SameCall(call, t.call) && t.now == c.clock.t && old(c.clock.t) <= c.clock.t
    ensures (c.cache.lru.m, r) == Answer(c.p, c.cache.Cfg(), old(c.cache.lru.m), t)
  {
    ghost var gone: set<Key> := {};
    ghost var visits: seq<Visit> := [];
    match call {
      case SetEntry(k, e, exp) => r, gone := c.Set(k, Wrapped(e), exp);
      case GetEntry(k) => r := c.Get(k);
      case Exists(k) => var _, got := c.Exists(k); r := got;
      case DeleteKey(k) => r := c.Delete(k);
      case FlushAll => r := c.Flush();
      case Janitor(_) => visits := c.cache.DeleteExpired(); r := Done;
    }
    t := Turn(if call.Janitor? then Janitor(visits) else call, c.clock.t, gone);
  }

  /**
   * Any calls on a new cache, encrypting or not: the replies are those of the run, and the store ends with its
   * contents; so the transparency theorem speaks of these objects.
   */
  method DriveCache(c: GenericCache, calls: seq<Call>) returns (replies: seq<Reply>, ghost turns: seq<Turn>)
    requires c.Shaped() && c.Ready() && c.cache != null && c.readCache == null && c.cache.lru.m == map[]
    modifies c.clock, c.cache.lru
    ensures c.Ready() && |turns| == |calls| && forall i :: 0 <= i < |calls| ==> SameCall(calls[i], turns[i].call)
    ensures replies == Transparency.Replies(c.p, c.cache.Cfg(), turns)
    ensures c.cache.lru.m == Contents(c.p, c.cache.Cfg(), turns)
  {
    replies, turns := [], [];
    for i := 0 to |calls|
      invariant c.Ready() && |turns| == i && RanAs(c, turns, replies)
      invariant forall j :: 0 <= j < i ==> SameCall(calls[j], turns[j].call)
    {
      var r, t := CallCache(c, calls[i]);
      TurnAppends(c.p, c.cache.Cfg(), turns, t);
      turns := turns + [t];
      replies := replies + [r];
    }
  }

  /** The cache has answered these turns from empty with these replies. */
  ghost predicate RanAs(c: GenericCache, turns: seq<Turn>, replies: seq<Reply>)
    requires c.p.Good() && c.cache != null
    reads c.cache.lru
  {
    && replies == Transparency.Replies(c.p, c.cache.Cfg(), turns)
    && c.cache.lru.m == Contents(c.p, c.cache.Cfg(), turns)
  }
}
