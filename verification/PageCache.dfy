/** The page cache (galapagos_gin/cache/cache.go): the caching writer and the CachePage decorator. */
module PageCache {
  import opened GoNumbers
  import opened Entries
  import opened StoreSpec
  import opened InMemory

  /** http.Header, with canonical names. */
  type Header = map<string, seq<string>>

  const OKAY_TO_CACHE := "X-Okay-To-Cache"

  /** len(h.Get("x-okay-to-cache")) != 0: only the first value counts. */
  predicate Okay(h: Header) {
    OKAY_TO_CACHE in h && |h[OKAY_TO_CACHE]| > 0 && |h[OKAY_TO_CACHE][0]| > 0
  }

  function Values(h: Header, name: string): (vs: seq<string>) {
    if name in h then h[name] else []
  }

  /** What a request replays from the cache. */
  datatype Replay = Replay(status: int64, header: Header, body: Bytes)

  /** What a lookup leads to: a page to replay, the handler, or a failed type assertion. */
  datatype Verdict = Cached(page: Replay) | RunIt | Crash

  function Judge(r: Reply, headers: map<HeaderRef, Header>): (v: Verdict) {
    if r.Panicked? then Crash
    else if r.HitValue? && r.v.Page? && r.v.header in headers && Okay(headers[r.v.header])
    then Cached(Replay(r.v.status, headers[r.v.header], r.v.body))
    else RunIt
  }

  /**
   * What the entry under the key leads to at instant `at`: a page is replayed, with its status, its body and the
   * header map it points at, exactly if it is resident, unexpired, and the first value that map has for
   * x-okay-to-cache is not empty; a resident unexpired entry that is no page fails the assertion.
   */
  ghost predicate Leads(m: Resident, headers: map<HeaderRef, Header>, key: Key, at: int, v: Verdict) {
    var there := key in m && !Expired(m[key], at);
    && (v.Crash? <==> there && !m[key].data.Page?)
    && (v.Cached? <==>
          && there && m[key].data.Page? && m[key].data.header in headers
          && var values := Values(headers[m[key].data.header], "X-Okay-To-Cache"); |values| > 0 && values[0] != "")
    && (v.Cached? ==>
          var Page(status, header, body) := m[key].data;
          v.page.status == status && v.page.header == headers[header] && v.page.body == body)
  }

  /** The store's Get and the judgement of its answer come to just that. */
  lemma LookupLeads(m: Resident, headers: map<HeaderRef, Header>, key: Key, at: int)
    ensures Leads(m, headers, key, at, Judge(StepGet(m, key, WantPage, at).1, headers))
  {
  }

  /** How the writer below took some bytes: all of them, or an error after the first few. */
  datatype Taken = Whole | Broken(sent: nat)

  function Sent(data: Bytes, taken: Taken): (bs: Bytes)
    ensures |bs| <= |data| && bs == data[..|bs|] && (taken.Whole? ==> bs == data)
    ensures taken.Broken? ==> |bs| == taken.sent || (|bs| == |data| < taken.sent)
  {
    if taken.Whole? || taken.sent >= |data| then data else data[..taken.sent]
  }

  /** Everything a handler can do to its writer; Write and WriteString store alike. */
  datatype Act =
    | Headers(h: Header)                // any change of the header map
    | WriteHeader(code: int64)
    | Write(data: Bytes, taken: Taken)

  /** The header maps alive in the process, by reference: a cached page keeps the writer's own map. */
  class HeaderHeap {
    var maps: map<HeaderRef, Header>

    constructor ()
      ensures maps == map[]
    {
      maps := map[];
    }
  }

  /** The writer below: it has the header map `ref` and collects what is written. */
  class GinWriter {
    const ref: HeaderRef
    var status: int64
    var body: Bytes

    constructor (ref: HeaderRef)
      ensures this.ref == ref && status == 200 && body == []
    {
      this.ref := ref;
      status := 200;
      body := [];
    }

    method WriteHeader(code: int64)
      modifies this
      ensures status == if code > 0 then code else old(status)
      ensures body == old(body)
    {
      if code > 0 {
        status := code;
      }
    }

    method Write(data: Bytes, taken: Taken) returns (n: nat, ok: bool)
      modifies this
      ensures status == old(status) && body == old(body) + Sent(data, taken)
      ensures n == |Sent(data, taken)| && ok == taken.Whole?
    {
      body := body + Sent(data, taken);
      n, ok := |Sent(data, taken)|, taken.Whole?;
    }
  }

  /** One stored chunk, as an entry of the store: status so far, a pointer to the header map, these bytes only. */
  function Chunk(status: int64, ref: HeaderRef, data: Bytes): (g: Given) {
    Bare(Page(status, ref, data))
  }

  class CachedWriter {
    const inner: GinWriter
    const store: InMemoryStore
    const expire: int64
    const key: Key
    var status: int64
    var written: bool

    constructor (store: InMemoryStore, expire: int64, inner: GinWriter, key: Key)
      ensures this.store == store && this.expire == expire && this.inner == inner && this.key == key
      ensures status == 0 && !written
    {
      this.store, this.expire, this.inner, this.key := store, expire, inner, key;
      status, written := 0, false;
    }

    method WriteHeader(code: int64)
      modifies this, inner
      ensures status == code && written
      ensures inner.status == (if code > 0 then code else old(inner.status)) && inner.body == old(inner.body)
    {
      status := code;
      written := true;
      inner.WriteHeader(code);
    }

    /**
     * Write, and WriteString with it: if the writer below took everything, this chunk replaces whatever the key
     * held.  Count and error are those of the writer below.
     */
    method Write(data: Bytes, taken: Taken) returns (n: nat, ok: bool, ghost gone: set<Key>)
      requires store.Valid()
      modifies inner, store.lru, store.clock
      ensures store.Valid() && old(store.clock.t) <= store.clock.t
      ensures inner.status == old(inner.status) && inner.body == old(inner.body) + Sent(data, taken)
      ensures n == |Sent(data, taken)| && ok == taken.Whole?
      ensures ok ==> store.lru.m == Admit(old(store.lru.m), key, Stored(status, data, store.clock.t), gone)
      ensures !ok ==> store.lru.m == old(store.lru.m)
    {
      gone := {};
      n, ok := inner.Write(data, taken);
      if ok {
        var _, g := store.Set(key, Bare(Page(status, inner.ref, data)), expire);
        gone := g;
      }
    }

    /** The entry a chunk becomes at instant `at`. */
    ghost function Stored(status: int64, data: Bytes, at: int): (e: Entry) {
      Stamp(Chunk(status, inner.ref, data), expire, store.defaultExp, at)
    }
  }

  /** The nested replay loops: whatever the iteration order, every value is added after those already there. */
  method ReplayHeaders(cached: Header, base: Header) returns (h: Header)
    ensures forall name :: Values(h, name) == Values(base, name) + Values(cached, name)
    ensures forall name :: name in h <==> name in base || Values(cached, name) != []
  {
    h := base;
    var todo := cached.Keys;
    while todo != {}
      invariant todo <= cached.Keys
      invariant forall name :: Values(h, name) == Values(base, name) + if name in todo then [] else Values(cached, name)
      invariant forall name :: name in h <==> name in base || (name !in todo && Values(cached, name) != [])
      decreases todo
    {
      var k :| k in todo;
      h := AddAll(h, k, cached[k]);
      todo := todo - {k};
    }
  }

  method AddAll(base: Header, k: string, vals: seq<string>) returns (h: Header)
    ensures forall name :: Values(h, name) == Values(base, name) + if name == k then vals else []
    ensures forall name :: name in h <==> name in base || (name == k && vals != [])
  {
    h := base;
    for i := 0 to |vals|
      invariant Values(h, k) == Values(base, k) + vals[..i]
      invariant forall name :: name != k ==> Values(h, name) == Values(base, name)
      invariant forall name :: name in h <==> name in base || (name == k && i > 0)
    {
      h := h[k := Values(h, k) + [vals[i]]];
    }
    assert vals[..|vals|] == vals;
  }

  // ----- One request -----

  /** The status a chunk is stored with: the last WriteHeader before it, 0 if there was none. */
  function StatusAfter(acts: seq<Act>): (status: int64) {
    if |acts| == 0 then 0
    else if acts[|acts| - 1].WriteHeader? then acts[|acts| - 1].code
    else StatusAfter(acts[..|acts| - 1])
  }

  /** The chunk a handler leaves in the cache: its last write that was taken, with the status of that moment. */
  function LastChunk(acts: seq<Act>): (c: Option<(int64, Bytes)>) {
    if |acts| == 0 then None
    else
      var front, last := acts[..|acts| - 1], acts[|acts| - 1];
      if last.Write? && last.taken.Whole? then Some((StatusAfter(front), last.data)) else LastChunk(front)
  }

  function HeaderAfter(h: Header, acts: seq<Act>): (h': Header) {
    if |acts| == 0 then h
    else if acts[|acts| - 1].Headers? then acts[|acts| - 1].h
    else HeaderAfter(h, acts[..|acts| - 1])
  }

  /** The bytes one action sends. */
  function SentBy(act: Act): (bs: Bytes) {
    if act.Write? then Sent(act.data, act.taken) else []
  }

  /** The body of the response that is actually sent. */
  function BodySent(acts: seq<Act>): (bs: Bytes) {
    if |acts| == 0 then [] else BodySent(acts[..|acts| - 1]) + SentBy(acts[|acts| - 1])
  }

  /** The status the writer below ends up with; it ignores codes that are not positive. */
  function StatusSent(status: int64, acts: seq<Act>): (r: int64) {
    if |acts| == 0 then status
    else if acts[|acts| - 1].WriteHeader? && acts[|acts| - 1].code > 0 then acts[|acts| - 1].code
    else StatusSent(status, acts[..|acts| - 1])
  }

  /** The position of the last write that was taken. */
  function LastTaken(acts: seq<Act>): (i: nat)
    requires LastChunk(acts).Some?
    ensures i < |acts| && acts[i].Write? && acts[i].taken.Whole?
    ensures LastChunk(acts).value == (StatusAfter(acts[..i]), acts[i].data)
  {
    var front, last := acts[..|acts| - 1], acts[|acts| - 1];
    if last.Write? && last.taken.Whole? then |acts| - 1
    else
      var i := LastTaken(front);
      assert front[..i] == acts[..i];
      i
  }

  /** Nothing is sent, except perhaps by action n. */
  ghost predicate SilentBut(acts: seq<Act>, n: int) {
    forall i :: 0 <= i < |acts| && i != n ==> SentBy(acts[i]) == []
  }

  lemma {:induction false} NothingSentIff(acts: seq<Act>)
    ensures BodySent(acts) == [] <==> SilentBut(acts, -1)
  {
    if |acts| > 0 {
      var front := acts[..|acts| - 1];
      NothingSentIff(front);
      assert forall i :: 0 <= i < |front| ==> front[i] == acts[i];
      assert |BodySent(acts)| == |BodySent(front)| + |SentBy(acts[|acts| - 1])|;
    }
  }

  lemma SilentSplits(acts: seq<Act>, n: nat)
    requires n < |acts|
    ensures SilentBut(acts, n) <==> SilentBut(acts[..n], -1) && SilentBut(acts[n + 1..], -1)
  {
    var before, after := acts[..n], acts[n + 1..];
    if SilentBut(acts, n) {
      forall i | 0 <= i < |after| ensures SentBy(after[i]) == [] {
        assert after[i] == acts[n + 1 + i];
      }
    }
    if SilentBut(before, -1) && SilentBut(after, -1) {
      forall i | 0 <= i < |acts| && i != n ensures SentBy(acts[i]) == [] {
        assert acts[i] == if i < n then before[i] else after[i - n - 1];
      }
    }
  }

  lemma {:induction false} LengthSplits(acts: seq<Act>, i: nat)
    requires i < |acts|
    ensures |BodySent(acts)| == |BodySent(acts[..i])| + |SentBy(acts[i])| + |BodySent(acts[i + 1..])|
  {
    if i == |acts| - 1 {
      assert acts[i + 1..] == [];
    } else {
      var front, rest := acts[..|acts| - 1], acts[i + 1..];
      LengthSplits(front, i);
      assert front[..i] == acts[..i] && front[i + 1..] == rest[..|rest| - 1];
    }
  }

  lemma {:induction false} OnlyOneSends(acts: seq<Act>, n: nat)
    requires n < |acts| && SilentBut(acts, n)
    ensures BodySent(acts) == SentBy(acts[n])
  {
    var front := acts[..|acts| - 1];
    assert forall i :: 0 <= i < |front| ==> front[i] == acts[i];
    if n == |acts| - 1 {
      NothingSentIff(front);
    } else {
      OnlyOneSends(front, n);
    }
  }

  /**
   * The cached page has the body of the response that was sent if and only if everything sent by other actions
   * than the last taken write is empty; so a handler that writes two non-empty chunks caches a truncated page.
   */
  lemma {:induction false} CachedBodyIsWholeIff(acts: seq<Act>)
    requires LastChunk(acts).Some?
    ensures LastChunk(acts).value.1 == BodySent(acts)
            <==> SilentBut(acts, LastTaken(acts))
  {
    var n := LastTaken(acts);
    var before, after := acts[..n], acts[n + 1..];
    LengthSplits(acts, n);
    NothingSentIff(before);
    NothingSentIff(after);
    SilentSplits(acts, n);
    if SilentBut(acts, n) {
      OnlyOneSends(acts, n);
    }
  }

  /** What one more action adds. */
  lemma OneMoreAct(acts: seq<Act>, a: Act, h: Header, st: int64)
    ensures StatusAfter(acts + [a]) == if a.WriteHeader? then a.code else StatusAfter(acts)
    ensures HeaderAfter(h, acts + [a]) == if a.Headers? then a.h else HeaderAfter(h, acts)
    ensures BodySent(acts + [a]) == BodySent(acts) + SentBy(a)
    ensures StatusSent(st, acts + [a]) == if a.WriteHeader? && a.code > 0 then a.code else StatusSent(st, acts)
    ensures LastChunk(acts + [a])
            == if a.Write? && a.taken.Whole? then Some((StatusAfter(acts), a.data)) else LastChunk(acts)
  {
    assert (acts + [a])[..|acts|] == acts;
  }

  /** One action of the handler. */
  method HandlerAct(w: CachedWriter, heap: HeaderHeap, act: Act)
    requires w.store.Valid() && w.inner.ref in heap.maps
    modifies w, w.inner, w.store.lru, w.store.clock, heap
    ensures w.store.Valid() && old(w.store.clock.t) <= w.store.clock.t
    ensures w.status == if act.WriteHeader? then act.code else old(w.status)
    ensures heap.maps == if act.Headers? then old(heap.maps)[w.inner.ref := act.h] else old(heap.maps)
    ensures w.inner.body == old(w.inner.body) + SentBy(act)
    ensures w.inner.status == if act.WriteHeader? && act.code > 0 then act.code else old(w.inner.status)
    ensures if act.Write? && act.taken.Whole?
            then w.key in w.store.lru.m && w.store.lru.m[w.key] == w.Stored(w.status, act.data, w.store.clock.t)
            else w.store.lru.m == old(w.store.lru.m)
  {
    match act
    case Headers(h) => heap.maps := heap.maps[w.inner.ref := h];
    case WriteHeader(code) => w.WriteHeader(code);
    case Write(data, taken) => var _, _, _ := w.Write(data, taken);
  }

  /** What the store holds after a handler: its last chunk, stamped when it was stored, or what it held before. */
  ghost predicate Holds(m: Resident, m0: Resident, w: CachedWriter, acts: seq<Act>, at: int) {
    if LastChunk(acts).None? then m == m0
    else w.key in m && m[w.key] == w.Stored(LastChunk(acts).value.0, LastChunk(acts).value.1, at)
  }

  /** How things stood when the handler started. */
  datatype Before = Before(m: Resident, t: int, headers: map<HeaderRef, Header>, body: Bytes, status: int64)

  /** How far the handler has come: response, header map and store are those of its actions so far. */
  ghost predicate Upto(w: CachedWriter, heap: HeaderHeap, b: Before, acts: seq<Act>, at: int)
    requires w.inner.ref in b.headers
    reads w, w.inner, w.store.lru, w.store.clock, heap
  {
    && w.store.Valid() && b.t <= at <= w.store.clock.t
    && w.status == StatusAfter(acts)
    && heap.maps == b.headers[w.inner.ref := HeaderAfter(b.headers[w.inner.ref], acts)]
    && w.inner.body == b.body + BodySent(acts)
    && w.inner.status == StatusSent(b.status, acts)
    && Holds(w.store.lru.m, b.m, w, acts, at)
  }

  method HandlerStep(w: CachedWriter, heap: HeaderHeap, ghost b: Before, ghost acts: seq<Act>, act: Act, ghost at: int)
    returns (ghost at': int)
    requires w.inner.ref in b.headers && Upto(w, heap, b, acts, at)
    modifies w, w.inner, w.store.lru, w.store.clock, heap
    ensures Upto(w, heap, b, acts + [act], at')
  {
    OneMoreAct(acts, act, b.headers[w.inner.ref], b.status);
    HandlerAct(w, heap, act);
    at' := if act.Write? && act.taken.Whole? then w.store.clock.t else at;
    assert b.body + BodySent(acts) + SentBy(act) == b.body + (BodySent(acts) + SentBy(act));
  }

  /**
   * The handler loop: the response goes out as the handler sends it, and what is left under the key is its last
   * taken chunk, stamped at the reading of that write and pointing at the final header map.
   */
  method RunHandler(w: CachedWriter, heap: HeaderHeap, acts: seq<Act>) returns (ghost at: int)
    requires w.store.Valid() && w.status == 0 && w.inner.ref in heap.maps
    modifies w, w.inner, w.store.lru, w.store.clock, heap
    ensures w.store.Valid() && old(w.store.clock.t) <= at <= w.store.clock.t
    ensures heap.maps == old(heap.maps)[w.inner.ref := HeaderAfter(old(heap.maps)[w.inner.ref], acts)]
    ensures w.inner.body == old(w.inner.body) + BodySent(acts)
    ensures w.inner.status == StatusSent(old(w.inner.status), acts)
    ensures Holds(w.store.lru.m, old(w.store.lru.m), w, acts, at)
  {
    ghost var b := Before(w.store.lru.m, w.store.clock.t, heap.maps, w.inner.body, w.inner.status);
    at := w.store.clock.t;
    for i := 0 to |acts|
      invariant Upto(w, heap, b, acts[..i], at)
    {
      assert acts[..i + 1] == acts[..i] + [acts[i]];
      at := HandlerStep(w, heap, b, acts[..i], acts[i], at);
    }
    assert acts[..|acts|] == acts;
  }

  /**
   * One request through CachePage: a usable page is replayed and the store left alone; an entry that is no page
   * panics; otherwise the handler runs behind a caching writer.
   */
  method CachePage(store: InMemoryStore, heap: HeaderHeap, writer: GinWriter, key: Key, expire: int64,
                   handler: seq<Act>)
    returns (v: Verdict, ghost looked: int, ghost at: int)
    requires store.Valid() && writer.ref in heap.maps
    modifies writer, store.lru, store.clock, heap
    ensures store.Valid() && old(store.clock.t) <= looked <= at <= store.clock.t
    ensures var (m, r) := StepGet(old(store.lru.m), key, WantPage, looked);
            v == Judge(r, old(heap.maps)) && (!v.RunIt? || LastChunk(handler).None? ==> store.lru.m == m)
    ensures Leads(old(store.lru.m), old(heap.maps), key, looked, v)
    ensures v.Cached? ==>
              && store.lru.m == old(store.lru.m)
              && writer.body == old(writer.body) + v.page.body
              && writer.status == (if v.page.status > 0 then v.page.status else old(writer.status))
              && writer.ref in heap.maps
              && (forall name :: Values(heap.maps[writer.ref], name)
                                 == Values(old(heap.maps)[writer.ref], name) + Values(v.page.header, name))
    ensures v.RunIt? ==>
              && writer.body == old(writer.body) + BodySent(handler)
              && writer.status == StatusSent(old(writer.status), handler)
              && heap.maps == old(heap.maps)[writer.ref := HeaderAfter(old(heap.maps)[writer.ref], handler)]
    ensures v.RunIt? && LastChunk(handler).Some? ==>
              var (status, data) := LastChunk(handler).value;
              && key in store.lru.m
              && store.lru.m[key] == Stamp(Chunk(status, writer.ref, data), expire, store.defaultExp, at)
    ensures v.Crash? ==> writer.body == old(writer.body) && heap.maps == old(heap.maps)
  {
    var r := store.Get(key, WantPage);
    looked, at := store.clock.t, store.clock.t;
    v := Judge(r, heap.maps);
    LookupLeads(old(store.lru.m), heap.maps, key, looked);
    match v
    case Crash =>
    case RunIt =>
      var w := new CachedWriter(store, expire, writer, key);
      at := RunHandler(w, heap, handler);
    case Cached(page) =>
      writer.WriteHeader(page.status);
      var h := ReplayHeaders(page.header, heap.maps[writer.ref]);
      heap.maps := heap.maps[writer.ref := h];
      var _, _ := writer.Write(page.body, Whole);
  }
}
