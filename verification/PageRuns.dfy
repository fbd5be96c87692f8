/**
 * Many requests against one page-cache wrapper, step by step: CachePage when `atomic` is false, CachePageAtomic
 * (one mutex around it) when it is true.  A step is one call of the shared LRU, one clock reading or one action
 * of a handler.  Handlers may do anything their writer allows, and other clients may write, drop or delete any
 * key at any time.
 */
module PageRuns {
  import opened GoNumbers
  import opened Entries
  import opened StoreSpec
  import opened PageCache

  /** A request; its number also names the header map of its writer. */
  type Req = HeaderRef

  datatype Wrapper = Wrapper(defaultExp: int64, expire: int64, atomic: bool)

  /**
   * A write that reached the store.  A chunk of a handler comes with the header map as it was at that moment and
   * the number of times the request had changed it; anything else was written by other clients.
   */
  datatype Record =
    | Stored(req: Req, key: Key, status: int64, header: Header, edits: nat, data: Bytes, at: int)
    | Foreign(key: Key, e: Entry)

  datatype Phase =
    | Waiting(key: Key)
    | Inside(key: Key)                                               // past the mutex, before the lookup
    | Looked(key: Key, hit: Option<Entry>, seen: Option<Record>)     // the LRU answered; seen: the last write then
    | Condemned(key: Key)                                            // the entry was judged expired, removal next
    | Handling(key: Key, status: int64)                              // the handler is running
    | Storing(key: Key, status: int64, data: Bytes, at: int)         // inside a write, stamped, LRU write next
    | Serving(key: Key, page: Replay)                                // a page from the cache is being replayed
    | Finished(key: Key)

  datatype Sys = Sys(
    m: Resident,
    clock: int,
    headers: map<Req, Header>,
    edits: map<Req, nat>,
    reqs: map<Req, Phase>,
    lock: Option<Req>,
    log: seq<Record>)

  datatype Action =
    | Arrive(q: Req, key: Key, h: Header)     // h: what earlier middleware already set
    | Enter(q: Req)
    | Advance(q: Req, gone: set<Key>)         // the next step of CachePage or of a write
    | Handle(q: Req, act: Act)                // the handler does something to its writer
    | Return(q: Req)                          // the handler returned or panicked, or the replay is done
    | Tick(elapsed: nat)
    | Drop(keys: set<Key>)                    // deletions, sweeps and evictions on behalf of others
    | Put(key: Key, e: Entry, gone: set<Key>) // a write by others

  function At(s: Sys, q: Req, p: Phase): (s': Sys) {
    s.(reqs := s.reqs[q := p])
  }

  function EntryOf(w: Wrapper, x: Record): (e: Entry) {
    match x
    case Stored(req, _, status, _, _, data, at) => Stamp(Chunk(status, req, data), w.expire, w.defaultExp, at)
    case Foreign(_, e) => e
  }

  /** The most recent write to the key, over all requests and clients. */
  function LastWrite(log: seq<Record>, key: Key): (x: Option<Record>) {
    if |log| == 0 then None
    else if log[|log| - 1].key == key then Some(log[|log| - 1])
    else LastWrite(log[..|log| - 1], key)
  }

  /** The handler and the replay both end here; the deferred unlock runs even after a panic. */
  function Leave(w: Wrapper, s: Sys, q: Req, key: Key): (s': Sys) {
    At(s.(lock := if w.atomic then None else s.lock), q, Finished(key))
  }

  /** What the lookup leads to, judged by the clock and the header map of this moment. */
  function Decide(w: Wrapper, s: Sys, q: Req, key: Key, hit: Option<Entry>): (s': Sys) {
    if hit.None? then At(s, q, Handling(key, 0))
    else if Expired(hit.value, s.clock) then At(s, q, Condemned(key))
    else
      match Judge(Deliver(hit.value, WantPage), s.headers)
      case Cached(page) => At(s, q, Serving(key, page))
      case RunIt => At(s, q, Handling(key, 0))
      case Crash => Leave(w, s, q, key)
  }

  function Commit(w: Wrapper, s: Sys, x: Record, gone: set<Key>): (s': Sys) {
    s.(m := Admit(s.m, x.key, EntryOf(w, x), gone), log := s.log + [x])
  }

  function DoAdvance(w: Wrapper, s: Sys, q: Req, gone: set<Key>): (s': Sys)
    requires q in s.reqs && q in s.headers && q in s.edits
  {
    match s.reqs[q]
    case Inside(key) =>
      At(s, q, Looked(key, if key in s.m then Some(s.m[key]) else None, LastWrite(s.log, key)))
    case Looked(key, hit, _) => Decide(w, s, q, key, hit)
    case Condemned(key) => At(s.(m := s.m - {key}), q, Handling(key, 0))
    case Storing(key, status, data, at) =>
      At(Commit(w, s, Stored(q, key, status, s.headers[q], s.edits[q], data, at), gone), q, Handling(key, status))
    case _ => s
  }

  function DoAct(s: Sys, q: Req, key: Key, status: int64, act: Act): (s': Sys)
    requires q in s.edits
  {
    match act
    case Headers(h) => s.(headers := s.headers[q := h], edits := s.edits[q := s.edits[q] + 1])
    case WriteHeader(code) => At(s, q, Handling(key, code))
    case Write(data, taken) => if taken.Whole? then At(s, q, Storing(key, status, data, s.clock)) else s
  }

  /** The request is known, with a header map. */
  predicate Known(s: Sys, q: Req) {
    q in s.reqs && q in s.headers && q in s.edits
  }

  /** The effect of an action; an impossible one does nothing, so every sequence of actions is a run. */
  function Perform(w: Wrapper, s: Sys, a: Action): (s': Sys) {
    match a
    case Arrive(q, key, h) =>
      if q in s.reqs then s
      else At(s.(headers := s.headers[q := h], edits := s.edits[q := 0]), q, Waiting(key))
    case Enter(q) =>
      if Known(s, q) && s.reqs[q].Waiting? && (w.atomic ==> s.lock.None?)
      then At(s.(lock := if w.atomic then Some(q) else s.lock), q, Inside(s.reqs[q].key)) else s
    case Advance(q, gone) => if Known(s, q) then DoAdvance(w, s, q, gone) else s
    case Handle(q, act) =>
      if Known(s, q) && s.reqs[q].Handling? then DoAct(s, q, s.reqs[q].key, s.reqs[q].status, act) else s
    case Return(q) =>
      if Known(s, q) && (s.reqs[q].Handling? || s.reqs[q].Serving?) then Leave(w, s, q, s.reqs[q].key) else s
    case Tick(elapsed) => s.(clock := s.clock + elapsed)
    case Drop(keys) => s.(m := s.m - keys)
    case Put(key, e, gone) => Commit(w, s, Foreign(key, e), gone)
  }

  function Initial(clock: int): (s: Sys) {
    Sys(map[], clock, map[], map[], map[], None, [])
  }

  function Exec(w: Wrapper, s: Sys, acts: seq<Action>): (s': Sys) {
    if |acts| == 0 then s else Perform(w, Exec(w, s, acts[..|acts| - 1]), acts[|acts| - 1])
  }

  // ----- What is served -----

  lemma {:induction false} LastWriteIsLogged(log: seq<Record>, key: Key)
    ensures LastWrite(log, key).Some? ==> LastWrite(log, key).value in log && LastWrite(log, key).value.key == key
  {
    if |log| > 0 {
      LastWriteIsLogged(log[..|log| - 1], key);
    }
  }

  lemma LastWriteAppends(log: seq<Record>, x: Record, key: Key)
    ensures LastWrite(log + [x], key) == if x.key == key then Some(x) else LastWrite(log, key)
  {
    assert (log + [x])[..|log|] == log;
  }

  /** The request got as far as its handler. */
  predicate Started(p: Phase) {
    p.Handling? || p.Storing? || p.Finished?
  }

  /** What is resident is what was last written. */
  predicate Backed(w: Wrapper, s: Sys, k: Key) {
    k in s.m ==> LastWrite(s.log, k).Some? && s.m[k] == EntryOf(w, LastWrite(s.log, k).value)
  }

  /** A chunk comes from a handler; its header map is unchanged as long as the edits are. */
  predicate ChunkOk(s: Sys, x: Record) {
    x.Stored? ==>
      && Known(s, x.req) && s.reqs[x.req].key == x.key && Started(s.reqs[x.req])
      && x.edits <= s.edits[x.req] && (x.edits == s.edits[x.req] ==> s.headers[x.req] == x.header)
  }

  /** What a lookup found is what had last been written at that moment. */
  predicate RequestOk(w: Wrapper, s: Sys, q: Req)
    requires q in s.reqs
  {
    var p := s.reqs[q];
    && Known(s, q)
    && (p.Looked? && p.seen.Some? ==> p.seen.value in s.log && p.seen.value.key == p.key)
    && (p.Looked? && p.hit.Some? ==> p.seen.Some? && p.hit.value == EntryOf(w, p.seen.value))
  }

  ghost predicate PageInv(w: Wrapper, s: Sys) {
    && (forall k: Key :: Backed(w, s, k))
    && (forall x <- s.log :: ChunkOk(s, x))
    && (forall q :: q in s.reqs ==> RequestOk(w, s, q))
  }

  /** Steps that neither write nor touch header maps: one request changes phase, entries may disappear. */
  lemma QuietKeepsInv(w: Wrapper, s: Sys, s': Sys, q: Req)
    requires PageInv(w, s) && q in s.reqs && s'.log == s.log && s'.headers == s.headers && s'.edits == s.edits
    requires s'.m.Keys <= s.m.Keys && forall k :: k in s'.m ==> s'.m[k] == s.m[k]
    requires s'.reqs.Keys == s.reqs.Keys && forall x :: x in s.reqs && x != q ==> s'.reqs[x] == s.reqs[x]
    requires s'.reqs[q].key == s.reqs[q].key && (Started(s.reqs[q]) ==> Started(s'.reqs[q])) && RequestOk(w, s', q)
    ensures PageInv(w, s')
  {
    forall k: Key ensures Backed(w, s', k) {
      assert Backed(w, s, k);
    }
    forall x <- s'.log ensures ChunkOk(s', x) {
      assert ChunkOk(s, x);
    }
    forall x | x in s'.reqs ensures RequestOk(w, s', x) {
      assert RequestOk(w, s, x);
    }
  }

  /** A write, by a handler or by others. */
  lemma WriteKeepsInv(w: Wrapper, s: Sys, x: Record, gone: set<Key>)
    requires PageInv(w, s) && ChunkOk(s, x)
    ensures PageInv(w, Commit(w, s, x, gone))
  {
    var s' := Commit(w, s, x, gone);
    forall k: Key ensures Backed(w, s', k) {
      assert Backed(w, s, k);
      LastWriteAppends(s.log, x, k);
    }
    forall y <- s'.log ensures ChunkOk(s', y) {
      assert y != x ==> y in s.log;
    }
    forall q | q in s'.reqs ensures RequestOk(w, s', q) {
      assert RequestOk(w, s, q);
    }
  }

  lemma {:induction false} LookupKeepsInv(w: Wrapper, s: Sys, q: Req, gone: set<Key>)
    requires PageInv(w, s) && Known(s, q) && s.reqs[q].Inside?
    ensures PageInv(w, DoAdvance(w, s, q, gone))
  {
    assert Backed(w, s, s.reqs[q].key);
    LastWriteIsLogged(s.log, s.reqs[q].key);
    QuietKeepsInv(w, s, DoAdvance(w, s, q, gone), q);
  }

  /** A request moves to a phase that holds no lookup, perhaps with the mutex changing hands. */
  lemma {:induction false} PhaseKeepsInv(w: Wrapper, s: Sys, q: Req, p: Phase, lock: Option<Req>)
    requires PageInv(w, s) && Known(s, q) && p.key == s.reqs[q].key && !p.Looked?
    requires Started(s.reqs[q]) ==> Started(p)
    ensures PageInv(w, At(s.(lock := lock), q, p))
  {
    QuietKeepsInv(w, s, At(s.(lock := lock), q, p), q);
  }

  lemma {:induction false} DecisionKeepsInv(w: Wrapper, s: Sys, q: Req, hit: Option<Entry>)
    requires PageInv(w, s) && Known(s, q) && s.reqs[q].Looked?
    ensures PageInv(w, Decide(w, s, q, s.reqs[q].key, hit))
  {
    var key, s' := s.reqs[q].key, Decide(w, s, q, s.reqs[q].key, hit);
    var lock := s'.lock;
    assert s' == At(s.(lock := lock), q, s'.reqs[q]);
    PhaseKeepsInv(w, s, q, s'.reqs[q], lock);
  }

  lemma {:induction false} RemovalKeepsInv(w: Wrapper, s: Sys, q: Req, gone: set<Key>)
    requires PageInv(w, s) && Known(s, q) && s.reqs[q].Condemned?
    ensures PageInv(w, DoAdvance(w, s, q, gone))
  {
    QuietKeepsInv(w, s, DoAdvance(w, s, q, gone), q);
  }

  lemma {:induction false} AdvanceKeepsInv(w: Wrapper, s: Sys, q: Req, gone: set<Key>)
    requires PageInv(w, s) && Known(s, q)
    ensures PageInv(w, DoAdvance(w, s, q, gone))
  {
    var p := s.reqs[q];
    if p.Storing? {
      var x := Stored(q, p.key, p.status, s.headers[q], s.edits[q], p.data, p.at);
      WriteKeepsInv(w, s, x, gone);
      QuietKeepsInv(w, Commit(w, s, x, gone), DoAdvance(w, s, q, gone), q);
    } else if p.Inside? {
      LookupKeepsInv(w, s, q, gone);
    } else if p.Looked? {
      DecisionKeepsInv(w, s, q, p.hit);
    } else if p.Condemned? {
      RemovalKeepsInv(w, s, q, gone);
    }
  }

  lemma HeadersKeepInv(w: Wrapper, s: Sys, q: Req, h: Header)
    requires PageInv(w, s) && Known(s, q)
    ensures PageInv(w, s.(headers := s.headers[q := h], edits := s.edits[q := s.edits[q] + 1]))
  {
    var s' := s.(headers := s.headers[q := h], edits := s.edits[q := s.edits[q] + 1]);
    forall k: Key ensures Backed(w, s', k) {
      assert Backed(w, s, k);
    }
    forall x <- s'.log ensures ChunkOk(s', x) {
      assert ChunkOk(s, x);
    }
    forall x | x in s'.reqs ensures RequestOk(w, s', x) {
      assert RequestOk(w, s, x);
    }
  }

  lemma ArriveKeepsInv(w: Wrapper, s: Sys, q: Req, key: Key, h: Header)
    requires PageInv(w, s) && q !in s.reqs
    ensures PageInv(w, Perform(w, s, Arrive(q, key, h)))
  {
    var s' := Perform(w, s, Arrive(q, key, h));
    forall k: Key ensures Backed(w, s', k) {
      assert Backed(w, s, k);
    }
    forall x <- s'.log ensures ChunkOk(s', x) {
      assert ChunkOk(s, x);
    }
    forall x | x in s'.reqs ensures RequestOk(w, s', x) {
      assert x != q ==> RequestOk(w, s, x);
    }
  }

  lemma DropKeepsInv(w: Wrapper, s: Sys, keys: set<Key>)
    requires PageInv(w, s)
    ensures PageInv(w, s.(m := s.m - keys))
  {
    forall k: Key ensures Backed(w, s.(m := s.m - keys), k) {
      assert Backed(w, s, k);
    }
    forall x <- s.log ensures ChunkOk(s.(m := s.m - keys), x) {
      assert ChunkOk(s, x);
    }
    forall x | x in s.reqs ensures RequestOk(w, s.(m := s.m - keys), x) {
      assert RequestOk(w, s, x);
    }
  }

  lemma {:induction false} ActKeepsInv(w: Wrapper, s: Sys, q: Req, act: Act)
    requires PageInv(w, s) && Known(s, q)
    ensures PageInv(w, Perform(w, s, Handle(q, act)))
  {
    if s.reqs[q].Handling? {
      if act.Headers? {
        HeadersKeepInv(w, s, q, act.h);
      } else {
        QuietKeepsInv(w, s, Perform(w, s, Handle(q, act)), q);
      }
    }
  }

  lemma {:induction false} GateKeepsInv(w: Wrapper, s: Sys, a: Action, q: Req)
    requires PageInv(w, s) && Known(s, q) && (a == Enter(q) || a == Return(q))
    ensures PageInv(w, Perform(w, s, a))
  {
    QuietKeepsInv(w, s, Perform(w, s, a), q);
  }

  lemma {:induction false} StepKeepsPageInv(w: Wrapper, s: Sys, a: Action)
    requires PageInv(w, s)
    ensures PageInv(w, Perform(w, s, a))
  {
    match a
    case Arrive(q, key, h) => if q !in s.reqs { ArriveKeepsInv(w, s, q, key, h); }
    case Advance(q, gone) => if Known(s, q) { AdvanceKeepsInv(w, s, q, gone); }
    case Handle(q, act) => if Known(s, q) { ActKeepsInv(w, s, q, act); }
    case Enter(q) => if Known(s, q) { GateKeepsInv(w, s, a, q); }
    case Return(q) => if Known(s, q) { GateKeepsInv(w, s, a, q); }
    case Drop(keys) => DropKeepsInv(w, s, keys);
    case Put(key, e, gone) => WriteKeepsInv(w, s, Foreign(key, e), gone);
    case Tick(elapsed) => TickKeepsInv(w, s, elapsed);
  }

  lemma TickKeepsInv(w: Wrapper, s: Sys, elapsed: nat)
    requires PageInv(w, s)
    ensures PageInv(w, s.(clock := s.clock + elapsed))
  {
    var s' := s.(clock := s.clock + elapsed);
    forall k: Key ensures Backed(w, s', k) {
      assert Backed(w, s, k);
    }
    forall x <- s'.log ensures ChunkOk(s', x) {
      assert ChunkOk(s, x);
    }
    forall x | x in s'.reqs ensures RequestOk(w, s', x) {
      assert RequestOk(w, s, x);
    }
  }

  lemma {:induction false} PageInvariant(w: Wrapper, clock: int, acts: seq<Action>)
    ensures PageInv(w, Exec(w, Initial(clock), acts))
  {
    if |acts| > 0 {
      PageInvariant(w, clock, acts[..|acts| - 1]);
      StepKeepsPageInv(w, Exec(w, Initial(clock), acts[..|acts| - 1]), acts[|acts| - 1]);
    }
  }

  /** The page a write left behind, with the header map it points at as it is now. */
  function PageOf(s: Sys, x: Record): (p: Option<Replay>) {
    match x
    case Stored(req, _, status, _, _, data, _) =>
      if req in s.headers then Some(Replay(status, s.headers[req], data)) else None
    case Foreign(_, e) =>
      if e.data.Page? && e.data.header in s.headers
      then Some(Replay(e.data.status, s.headers[e.data.header], e.data.body)) else None
  }

  /**
   * A request that has looked did so at one earlier step of its own: what it found is what was resident then, and
   * what it noted is the last write to its key at that moment.
   */
  lemma {:induction false} LookupSeesLastWrite(w: Wrapper, clock: int, acts: seq<Action>, q: Req) returns (n: nat)
    requires var s := Exec(w, Initial(clock), acts); q in s.reqs && s.reqs[q].Looked?
    ensures n < |acts| && acts[n].Advance? && acts[n].q == q
    ensures var Looked(k, hit, seen) := Exec(w, Initial(clock), acts).reqs[q];
            var s0 := Exec(w, Initial(clock), acts[..n]);
            && q in s0.reqs && s0.reqs[q] == Inside(k)
            && seen == LastWrite(s0.log, k)
            && hit == if k in s0.m then Some(s0.m[k]) else None
  {
    var front, last := acts[..|acts| - 1], acts[|acts| - 1];
    var s := Exec(w, Initial(clock), front);
    if q in s.reqs && s.reqs[q].Looked? {
      n := LookupSeesLastWrite(w, clock, front, q);
      assert front[..n] == acts[..n];
      LookedOnce(w, s, last, q);
    } else {
      n := |acts| - 1;
      LookedFromInside(w, s, last, q);
    }
  }

  lemma {:induction false} LookedOnce(w: Wrapper, s: Sys, a: Action, q: Req)
    requires q in s.reqs && s.reqs[q].Looked? && q in Perform(w, s, a).reqs && Perform(w, s, a).reqs[q].Looked?
    ensures Perform(w, s, a).reqs[q] == s.reqs[q]
  {
    if a.Advance? && Known(s, a.q) && a.q != q {
      OthersStay(w, s, a.q, a.gone, q);
    }
  }

  lemma {:induction false} LookedFromInside(w: Wrapper, s: Sys, a: Action, q: Req)
    requires q in Perform(w, s, a).reqs && Perform(w, s, a).reqs[q].Looked?
    requires !(q in s.reqs && s.reqs[q].Looked?)
    ensures a.Advance? && a.q == q && Known(s, q) && s.reqs[q].Inside?
    ensures var k := s.reqs[q].key;
            Perform(w, s, a).reqs[q]
            == Looked(k, if k in s.m then Some(s.m[k]) else None, LastWrite(s.log, k))
  {
    if !(a.Advance? && a.q == q) {
      OneRequestMoves(w, s, a, q);
    }
  }

  /**
   * In every run, locked or not, with other clients at work: after its lookup a request is served from the cache
   * exactly when it found an entry, that entry is unexpired and the header map it points at now says
   * okay-to-cache.  What it is served is the write that was the most recent one at its lookup: for a handler's
   * chunk, the status and bytes of that single write, made by another request, and the live headers of that
   * request, which are the stored ones unless it has changed them since.  An unexpired entry that is no page
   * ends the request, and in every other case the handler runs or the expired entry is removed first.
   */
  lemma {:induction false} ServedIsLastWrite(w: Wrapper, clock: int, acts: seq<Action>, q: Req, gone: set<Key>)
    requires var s := Exec(w, Initial(clock), acts); q in s.reqs && s.reqs[q].Looked?
    ensures var s := Exec(w, Initial(clock), acts);
            var Looked(k, hit, seen) := s.reqs[q];
            var p := Perform(w, s, Advance(q, gone)).reqs[q];
            && (p.Serving? <==>
                  && hit.Some? && !Expired(hit.value, s.clock) && seen.Some? && PageOf(s, seen.value).Some?
                  && var values := Values(PageOf(s, seen.value).value.header, "X-Okay-To-Cache");
                     |values| > 0 && values[0] != "")
            && (p.Serving? ==> p.page == PageOf(s, seen.value).value && hit.value == EntryOf(w, seen.value))
            && (p.Serving? && seen.value.Stored? ==>
                  && seen.value.req != q && seen.value.req in s.edits
                  && (seen.value.edits == s.edits[seen.value.req] ==> p.page.header == seen.value.header))
            && (p.Condemned? <==> hit.Some? && Expired(hit.value, s.clock))
            && (p.Finished? <==> hit.Some? && !Expired(hit.value, s.clock) && !hit.value.data.Page?)
            && (p.Serving? || p.Condemned? || p.Finished? || p == Handling(k, 0))
  {
    PageInvariant(w, clock, acts);
    var s := Exec(w, Initial(clock), acts);
    assert RequestOk(w, s, q);
    if s.reqs[q].seen.Some? {
      assert ChunkOk(s, s.reqs[q].seen.value);
    }
  }

  // ----- The mutex -----

  predicate Running(p: Phase) {
    !p.Waiting? && !p.Finished?
  }

  /** The mutex is held exactly by the one request that is running, so it is never leaked either. */
  ghost predicate Exclusive(s: Sys) {
    && (forall q :: q in s.reqs && Running(s.reqs[q]) ==> s.lock == Some(q))
    && (s.lock.Some? ==> s.lock.value in s.reqs && Running(s.reqs[s.lock.value]))
  }

  lemma LockStep(w: Wrapper, s: Sys, a: Action)
    requires w.atomic && Exclusive(s)
    ensures Exclusive(Perform(w, s, a))
  {
  }

  lemma {:induction false} LockExcludes(w: Wrapper, clock: int, acts: seq<Action>)
    requires w.atomic
    ensures Exclusive(Exec(w, Initial(clock), acts))
  {
    if |acts| > 0 {
      LockExcludes(w, clock, acts[..|acts| - 1]);
      LockStep(w, Exec(w, Initial(clock), acts[..|acts| - 1]), acts[|acts| - 1]);
    }
  }

  predicate InHandler(p: Phase) {
    p.Handling? || p.Storing?
  }

  /** At most one handler executes at a time. */
  lemma OneHandlerAtATime(w: Wrapper, clock: int, acts: seq<Action>, x: Req, y: Req)
    requires w.atomic
    requires var s := Exec(w, Initial(clock), acts);
             x in s.reqs && y in s.reqs && InHandler(s.reqs[x]) && InHandler(s.reqs[y])
    ensures x == y
  {
    LockExcludes(w, clock, acts);
  }

  /** The entry is there, unexpired, and its header map says okay-to-cache. */
  predicate Fresh(s: Sys, k: Key, e: Entry) {
    && k in s.m && s.m[k] == e && !Expired(e, s.clock)
    && e.data.Page? && e.data.header in s.headers && Okay(s.headers[e.data.header])
  }

  /** Not in the handler nor bound for it: a lookup, if there was one, has found e. */
  predicate Harmless(p: Phase, e: Entry) {
    !InHandler(p) && !p.Condemned? && (p.Looked? ==> p.hit == Some(e))
  }

  /** One step of another request that has come no further than finding the page. */
  lemma {:induction false} HarmlessStep(w: Wrapper, s: Sys, q: Req, gone: set<Key>, k: Key, e: Entry)
    requires Fresh(s, k, e) && Known(s, q) && s.reqs[q].key == k && Harmless(s.reqs[q], e)
    ensures var s' := DoAdvance(w, s, q, gone); q in s'.reqs && Harmless(s'.reqs[q], e)
  {
  }

  /** An action is about one request at most; only Advance takes a request anywhere near the handler. */
  lemma {:induction false} OneRequestMoves(w: Wrapper, s: Sys, a: Action, q: Req)
    requires q in Perform(w, s, a).reqs && !(a.Advance? && a.q == q)
    ensures var p' := Perform(w, s, a).reqs[q];
            if q !in s.reqs then p'.Waiting?
            else p'.key == s.reqs[q].key && (p' == s.reqs[q] || InHandler(s.reqs[q]) || p'.Inside? || p'.Finished?)
  {
    if a.Advance? && Known(s, a.q) {
      OthersStay(w, s, a.q, a.gone, q);
    }
  }

  lemma {:induction false} OthersStay(w: Wrapper, s: Sys, x: Req, gone: set<Key>, q: Req)
    requires Known(s, x) && q != x
    ensures q in DoAdvance(w, s, x, gone).reqs <==> q in s.reqs
    ensures q in s.reqs ==> DoAdvance(w, s, x, gone).reqs[q] == s.reqs[q]
  {
  }

  /** Request q, if it is for k, is harmless. */
  predicate Out(s: Sys, q: Req, k: Key, e: Entry) {
    q in s.reqs && s.reqs[q].key == k ==> Harmless(s.reqs[q], e)
  }

  lemma {:induction false} OutStep(w: Wrapper, s: Sys, a: Action, k: Key, e: Entry, q: Req)
    requires Out(s, q, k, e) && Fresh(s, k, e)
    ensures Out(Perform(w, s, a), q, k, e)
  {
    var s' := Perform(w, s, a);
    if q in s'.reqs && s'.reqs[q].key == k {
      if a.Advance? && a.q == q {
        if Known(s, q) {
          AdvanceKeepsKey(w, s, q, a.gone);
          HarmlessStep(w, s, q, a.gone, k, e);
        }
      } else {
        OneRequestMoves(w, s, a, q);
      }
    }
  }

  lemma {:induction false} AdvanceKeepsKey(w: Wrapper, s: Sys, q: Req, gone: set<Key>)
    requires Known(s, q)
    ensures var s' := DoAdvance(w, s, q, gone); q in s'.reqs && s'.reqs[q].key == s.reqs[q].key
  {
  }

  /**
   * With or without the mutex, and however many requests are in the handler already: while a page stays resident,
   * unexpired, okay and not overwritten, a request enters the handler for its key only if, when that began, it was
   * in it already or had looked and not found this page.
   */
  lemma {:induction false} StaysOut(w: Wrapper, s: Sys, acts: seq<Action>, k: Key, e: Entry, q: Req)
    requires Out(s, q, k, e)
    requires forall n :: 0 <= n <= |acts| ==> Fresh(Exec(w, s, acts[..n]), k, e)
    ensures Out(Exec(w, s, acts), q, k, e)
  {
    if |acts| > 0 {
      var front := acts[..|acts| - 1];
      forall n | 0 <= n <= |front| ensures Fresh(Exec(w, s, front[..n]), k, e) {
        assert front[..n] == acts[..n];
      }
      StaysOut(w, s, front, k, e, q);
      assert front[..|front|] == front;
      OutStep(w, Exec(w, s, front), acts[|acts| - 1], k, e, q);
    }
  }

  /**
   * Exactly who enters: over a fresh page, the next step of a request takes it into the handler and leaves the page
   * fresh if and only if its lookup found nothing, or an unexpired page that is not okay-to-cache.
   */
  lemma {:induction false} EntersOverFreshIff(w: Wrapper, s: Sys, q: Req, gone: set<Key>, k: Key, e: Entry)
    requires Fresh(s, k, e) && Known(s, q) && s.reqs[q].key == k && !InHandler(s.reqs[q])
    ensures var s', p := Perform(w, s, Advance(q, gone)), s.reqs[q];
            && q in s'.reqs
            && (InHandler(s'.reqs[q]) && Fresh(s', k, e) <==>
                  && p.Looked?
                  && (p.hit.None? || (!Expired(p.hit.value, s.clock)
                                      && Judge(Deliver(p.hit.value, WantPage), s.headers).RunIt?)))
  {
  }

  /**
   * Under the mutex, once the running handler r has an okay-to-cache page in the store, no other request for
   * that key runs the handler for as long as that entry stays resident, unexpired, okay and not overwritten.
   */
  lemma {:induction false} HandlerNotRerun(w: Wrapper, clock: int, acts: seq<Action>, more: seq<Action>,
                                           k: Key, e: Entry, r: Req, q: Req)
    requires w.atomic
    requires var s := Exec(w, Initial(clock), acts);
             && r in s.reqs && InHandler(s.reqs[r])
             && forall n :: 0 <= n <= |more| ==> Fresh(Exec(w, s, more[..n]), k, e)
    ensures var s' := Exec(w, Exec(w, Initial(clock), acts), more);
            q in s'.reqs && InHandler(s'.reqs[q]) && s'.reqs[q].key == k ==> q == r
  {
    LockExcludes(w, clock, acts);
    if q != r {
      StaysOut(w, Exec(w, Initial(clock), acts), more, k, e, q);
    }
  }

  /** Under the mutex no header map changes while a page is being replayed, so it is the same map throughout. */
  lemma {:induction false} HeadersStillDuringReplay(w: Wrapper, clock: int, acts: seq<Action>, more: seq<Action>,
                                                    q: Req, x: Req)
    requires w.atomic
    requires forall n :: 0 <= n <= |more| ==> Replaying(Exec(w, Exec(w, Initial(clock), acts), more[..n]), q)
    requires x in Exec(w, Initial(clock), acts).reqs && x in Exec(w, Initial(clock), acts).headers
    ensures var s := Exec(w, Initial(clock), acts);
            var s' := Exec(w, s, more);
            x in s'.reqs && x in s'.headers && s'.headers[x] == s.headers[x]
  {
    if |more| > 0 {
      var front, last, s := more[..|more| - 1], more[|more| - 1], Exec(w, Initial(clock), acts);
      forall n | 0 <= n <= |front| ensures Replaying(Exec(w, s, front[..n]), q) {
        assert front[..n] == more[..n];
      }
      HeadersStillDuringReplay(w, clock, acts, front, q, x);
      assert front == more[..|front|];
      ExecAppends(w, Initial(clock), acts, front);
      LockExcludes(w, clock, acts + front);
      HeadersStillStep(w, Exec(w, s, front), last, q, x);
    }
  }

  predicate Replaying(s: Sys, q: Req) {
    q in s.reqs && s.reqs[q].Serving?
  }

  lemma {:induction false} HeadersStillStep(w: Wrapper, s: Sys, a: Action, q: Req, x: Req)
    requires w.atomic && Exclusive(s) && Replaying(s, q) && x in s.reqs && x in s.headers
    ensures var s' := Perform(w, s, a); x in s'.reqs && x in s'.headers && s'.headers[x] == s.headers[x]
  {
    assert Running(s.reqs[q]);
  }

  lemma ExecOneMore(w: Wrapper, s: Sys, acts: seq<Action>, a: Action)
    ensures Exec(w, s, acts + [a]) == Perform(w, Exec(w, s, acts), a)
  {
    assert (acts + [a])[..|acts|] == acts;
  }

  lemma {:induction false} ExecAppends(w: Wrapper, s: Sys, first: seq<Action>, more: seq<Action>)
    ensures Exec(w, s, first + more) == Exec(w, Exec(w, s, first), more)
  {
    if |more| == 0 {
      assert first + more == first;
    } else {
      var front, last := more[..|more| - 1], more[|more| - 1];
      calc {
        Exec(w, s, first + more);
        { assert first + more == (first + front) + [last]; }
        Exec(w, s, (first + front) + [last]);
        { ExecOneMore(w, s, first + front, last); }
        Perform(w, Exec(w, s, first + front), last);
        { ExecAppends(w, s, first, front); }
        Perform(w, Exec(w, Exec(w, s, first), front), last);
        { ExecOneMore(w, Exec(w, s, first), front, last); }
        Exec(w, Exec(w, s, first), front + [last]);
        { assert more == front + [last]; }
        Exec(w, Exec(w, s, first), more);
      }
    }
  }

  lemma Then(w: Wrapper, clock: int, acts: seq<Action>, a: Action) returns (more: seq<Action>, s: Sys)
    ensures more == acts + [a]
    ensures s == Exec(w, Initial(clock), more) == Perform(w, Exec(w, Initial(clock), acts), a)
  {
    more := acts + [a];
    assert more[..|more| - 1] == acts;
    s := Exec(w, Initial(clock), more);
  }

  lemma BothEnter(w: Wrapper, clock: int, k: Key, x: Req, y: Req) returns (acts: seq<Action>)
    requires !w.atomic && x != y
    ensures var s := Exec(w, Initial(clock), acts);
            && s.m == map[] && s.clock == clock && s.log == [] && Known(s, x) && Known(s, y)
            && s.reqs[x] == s.reqs[y] == Inside(k)
  {
    var s;
    acts, s := Then(w, clock, [], Arrive(x, k, map[]));
    acts, s := Then(w, clock, acts, Arrive(y, k, map[]));
    assert s.reqs[x] == s.reqs[y] == Waiting(k);
    acts, s := Then(w, clock, acts, Enter(x));
    acts, s := Then(w, clock, acts, Enter(y));
  }

  /** Without the mutex two requests for one key can both look before either has stored anything. */
  lemma BothReachTheHandler(w: Wrapper, clock: int, k: Key, x: Req, y: Req) returns (acts: seq<Action>)
    requires !w.atomic && x != y
    ensures var s := Exec(w, Initial(clock), acts);
            && s.m == map[] && s.clock == clock && Known(s, x) && Known(s, y)
            && s.reqs[x] == s.reqs[y] == Handling(k, 0)
  {
    var s;
    acts := BothEnter(w, clock, k, x, y);
    acts, s := Then(w, clock, acts, Advance(x, {}));
    acts, s := Then(w, clock, acts, Advance(y, {}));
    assert s.reqs[x] == s.reqs[y] == Looked(k, None, None);
    acts, s := Then(w, clock, acts, Advance(x, {}));
    acts, s := Then(w, clock, acts, Advance(y, {}));
  }

  /**
   * So the mutex is needed: the first handler stores a fresh okay-to-cache page and returns, and the second request
   * is in the handler for the same key all the same.
   */
  lemma HandlerRerunWithoutLock(w: Wrapper, clock: int, k: Key, x: Req, y: Req, page: Header, body: Bytes)
    returns (acts: seq<Action>)
    requires !w.atomic && x != y && Okay(page)
    requires !Expired(Stamp(Chunk(0, x, body), w.expire, w.defaultExp, clock), clock)
    ensures var s := Exec(w, Initial(clock), acts);
            && x in s.reqs && s.reqs[x] == Finished(k) && y in s.reqs && s.reqs[y] == Handling(k, 0)
            && Fresh(s, k, Stamp(Chunk(0, x, body), w.expire, w.defaultExp, clock))
  {
    var s;
    acts := BothReachTheHandler(w, clock, k, x, y);
    acts, s := Then(w, clock, acts, Handle(x, Headers(page)));
    acts, s := Then(w, clock, acts, Handle(x, Write(body, Whole)));
    assert s.reqs[x] == Storing(k, 0, body, clock) && s.reqs[y] == Handling(k, 0) && s.headers[x] == page;
    acts, s := Then(w, clock, acts, Advance(x, {}));
    assert s.reqs[x] == Handling(k, 0) && Fresh(s, k, Stamp(Chunk(0, x, body), w.expire, w.defaultExp, clock));
    acts, s := Then(w, clock, acts, Return(x));
  }
}
