/** The objects and the state machine meet: any sequence of calls on a store is a run of StoreSpec. */
module Driver {
  import opened Entries
  import opened StoreSpec
  import opened LastWrites
  import opened InMemory

  /** The same call; what a sweep visits is decided when it happens. */
  predicate SameCall(a: Op, b: Op) {
    a == b || (a.Sweep? && b.Sweep?)
  }

  method Call(c: InMemoryStore, op: Op) returns (r: Reply, ghost ev: Event)
    requires c.Valid()
    modifies c.lru, c.clock
    ensures c.Valid() && SameCall(op, ev.op) && ev.now == c.clock.t
    ensures c.Did(old(c.lru.m), old(c.clock.t), ev.op, ev.gone, r)
  {
    ghost var gone: set<Key> := {};
    ghost var visits: seq<Visit> := [];
    match op {
      case Get(k, want) => r := c.Get(k, want);
      case Set(k, g, exp) => r, gone := c.Set(k, g, exp);
      case Add(k, g, exp) => r, gone := c.Add(k, g, exp);
      case Replace(k, g, exp) => r, gone := c.Replace(k, g, exp);
      case Update(k, e) => r, gone := c.Update(k, e);
      case Delete(k) => r := c.Delete(k);
      case Tally(k, Inc(n)) => r, gone := c.Increment(k, n);
      case Tally(k, Dec(n)) => r, gone := c.Decrement(k, n);
      case Flush => r := c.Flush();
      case Sweep(_) => visits := c.DeleteExpired(); r := Done;
    }
    ev := Event(if op.Sweep? then Sweep(visits) else op, c.clock.t, gone);
  }

  /** Any sequence of calls on a valid store makes a run and answers as the run does. */
  method DriveAll(c: InMemoryStore, ops: seq<Op>) returns (replies: seq<Reply>, ghost evs: seq<Event>)
    requires c.Valid()
    modifies c.lru, c.clock
    ensures c.Valid() && |evs| == |ops| && forall i :: 0 <= i < |ops| ==> SameCall(ops[i], evs[i].op)
    ensures IsRun(c, State(old(c.lru.m), old(c.clock.t)), evs, replies)
  {
    ghost var s0 := State(c.lru.m, c.clock.t);
    replies, evs := [], [];
    for i := 0 to |ops|
      invariant c.Valid() && |evs| == i
      invariant forall j :: 0 <= j < i ==> SameCall(ops[j], evs[j].op)
      invariant IsRun(c, s0, evs, replies)
    {
      var r, ev := Call(c, ops[i]);
      RunAppends(c.Cfg(), s0, evs, ev);
      evs := evs + [ev];
      replies := replies + [r];
    }
  }

  /** The events form a run from s0 that ends where the store is, with these answers. */
  ghost predicate IsRun(c: InMemoryStore, s0: State, evs: seq<Event>, replies: seq<Reply>)
    reads c.lru, c.clock
  {
    && Run(c.Cfg(), s0, evs)
    && Exec(c.Cfg(), s0, evs) == State(c.lru.m, c.clock.t)
    && replies == Replies(c.Cfg(), s0, evs)
  }

  /**
   * Any sequence of calls on a store: the events form a run, the store ends where the run ends, the answers are
   * those of the run, and the store never outgrows its size.  On a new store the contents are the last successful
   * writes, as LastWrites says.
   */
  method Drive(c: InMemoryStore, ops: seq<Op>) returns (replies: seq<Reply>, ghost evs: seq<Event>)
    requires c.Valid()
    modifies c.lru, c.clock
    ensures c.Valid() && |c.lru.m| <= c.lru.size
    ensures |evs| == |ops| && forall i :: 0 <= i < |ops| ==> SameCall(ops[i], evs[i].op)
    ensures IsRun(c, State(old(c.lru.m), old(c.clock.t)), evs, replies)
    ensures old(c.lru.m) == map[] ==>
              var tr := Trace(c.Cfg(), State(map[], old(c.clock.t)), evs);
              Refines(c.Cfg(), State(c.lru.m, c.clock.t), History(c.Cfg(), tr), Dropped(tr))
  {
    replies, evs := DriveAll(c, ops);
    if old(c.lru.m) == map[] {
      StoreRefinesLastWrites(c.Cfg(), old(c.clock.t), evs);
    }
  }
}
