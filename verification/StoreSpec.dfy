/**
 * The in-memory store as a state machine over its resident entries: one transition per client call, one
 * for a janitor sweep.  Whatever the replacement policy throws out is part of the event, so that
 * statements about runs hold for every choice of victims.
 */
module StoreSpec {
  import opened GoNumbers
  import opened Counters
  import opened Entries

  datatype Config = Config(size: nat, defaultExp: int64)

  type Resident = map<Key, Entry>

  /** The pointer type a caller passes to Get. */
  datatype Want = WantString | WantInt | WantEntry | WantPage | WantOther

  /** One turn of the sweep loop: the key visited and the clock reading its expiry is judged by. */
  datatype Visit = Visit(key: Key, at: int)

  datatype Op =
    | Get(key: Key, want: Want)
    | Set(key: Key, given: Given, exp: int64)
    | Add(key: Key, given: Given, exp: int64)
    | Replace(key: Key, given: Given, exp: int64)
    | Update(key: Key, entry: Entry)
    | Delete(key: Key)
    | Tally(key: Key, delta: CounterOp)   // Increment and Decrement
    | Flush
    | Sweep(visits: seq<Visit>)

  datatype Reply =
    | Done
    | HitValue(v: Value)
    | HitEntry(e: Entry)
    | Counted(u: uint64)
    | Failed(error: Error)
    | Panicked

  /** An operation, the clock reading it used, and the keys the bounded map dropped to make room. */
  datatype Event = Event(op: Op, now: int, gone: set<Key>)

  function Admit(m: Resident, k: Key, e: Entry, gone: set<Key>): (m': Resident) {
    (m - gone)[k := e]
  }

  function Deliver(e: Entry, want: Want): (r: Reply) {
    match want
    case WantString => if e.data.Str? then HitValue(e.data) else Panicked
    case WantInt => if e.data.Int? then HitValue(e.data) else Panicked
    case WantEntry => HitEntry(e)
    case WantPage => if e.data.Page? then HitValue(e.data) else Panicked
    case WantOther => Failed(NotSupported)
  }

  function StepVisit(m: Resident, v: Visit): (m': Resident) {
    if v.key in m && Expired(m[v.key], v.at) then m - {v.key} else m
  }

  function StepSweep(m: Resident, visits: seq<Visit>): (m': Resident) {
    if |visits| == 0 then m
    else StepVisit(StepSweep(m, visits[..|visits| - 1]), visits[|visits| - 1])
  }

  function StepGet(m: Resident, k: Key, want: Want, now: int): (r: (Resident, Reply)) {
    if k !in m then (m, Failed(CacheMiss))
    else if Expired(m[k], now) then (m - {k}, Failed(CacheMiss))
    else (m, Deliver(m[k], want))
  }

  function StepTally(m: Resident, k: Key, delta: CounterOp, gone: set<Key>): (r: (Resident, Reply)) {
    if k !in m then (m, Failed(CacheMiss))
    else if !m[k].data.Int? then (m, Failed(NotSupported))
    else
      var v := Count(m[k].data.i, delta);
      (Admit(m, k, m[k].(data := Int(v)), gone), Counted(AsUint64(v)))
  }

  function Step(cfg: Config, m: Resident, ev: Event): (r: (Resident, Reply)) {
    match ev.op
    case Get(k, want) => StepGet(m, k, want, ev.now)
    case Set(k, g, exp) =>
      (Admit(m, k, Stamp(g, exp, cfg.defaultExp, ev.now), ev.gone), Done)
    case Add(k, g, exp) =>
      if k in m then (m, Failed(NotStored))
      else (Admit(m, k, Stamp(g, exp, cfg.defaultExp, ev.now), ev.gone), Done)
    case Replace(k, g, exp) =>
      if k in m then (Admit(m, k, Stamp(g, exp, cfg.defaultExp, ev.now), ev.gone), Done)
      else (m, Failed(NotStored))
    case Update(k, e) =>
      if k in m then (Admit(m, k, e, ev.gone), Done) else (m, Failed(NotStored))
    case Delete(k) =>
      if k in m then (m - {k}, Done) else (m, Failed(CacheMiss))
    case Tally(k, c) => StepTally(m, k, c, ev.gone)
    case Flush => (map[], Done)
    case Sweep(visits) => (StepSweep(m, visits), Done)
  }

  // ----- Runs -----

  datatype State = State(m: Resident, clock: int)

  function KeysOf(visits: seq<Visit>): (ks: seq<Key>) {
    if |visits| == 0 then [] else KeysOf(visits[..|visits| - 1]) + [visits[|visits| - 1].key]
  }

  /** Readings between lo and hi that never go back. */
  predicate Paced(visits: seq<Visit>, lo: int, hi: int) {
    if |visits| == 0 then lo <= hi
    else
      var last := visits[|visits| - 1];
      lo <= last.at <= hi && Paced(visits[..|visits| - 1], lo, last.at)
  }

  /** Each resident key once, and no other. */
  ghost predicate Lists(ks: seq<Key>, m: Resident) {
    && (forall i, j :: 0 <= i < j < |ks| ==> ks[i] != ks[j])
    && (forall k :: k in ks <==> k in m)
  }

  /** The sweep visits every key resident when it starts, once, at readings that never go back. */
  ghost predicate GoodVisits(m: Resident, visits: seq<Visit>, lo: int, hi: int) {
    Paced(visits, lo, hi) && Lists(KeysOf(visits), m)
  }

  /** The clock never goes back. */
  ghost predicate Timely(s: State, ev: Event) {
    s.clock <= ev.now && (ev.op.Sweep? ==> GoodVisits(s.m, ev.op.visits, s.clock, ev.now))
  }

  /** What the bounded map owes its owner: a new key that meets a full map drives out at least one resident. */
  predicate MakesRoom(size: nat, m: Resident, k: Key, gone: set<Key>) {
    k in m || |m| < size || gone * m.Keys != {}
  }

  /** Moreover the bounded map makes room before it takes a new key. */
  ghost predicate Legal(cfg: Config, s: State, ev: Event) {
    Timely(s, ev) && (Admits(s.m, ev.op) ==> MakesRoom(cfg.size, s.m, ev.op.key, ev.gone))
  }

  function Next(cfg: Config, s: State, ev: Event): (s': State) {
    State(Step(cfg, s.m, ev).0, ev.now)
  }

  function Exec(cfg: Config, s: State, evs: seq<Event>): (s': State) {
    if |evs| == 0 then s else Next(cfg, Exec(cfg, s, evs[..|evs| - 1]), evs[|evs| - 1])
  }

  ghost predicate Run(cfg: Config, s: State, evs: seq<Event>) {
    |evs| == 0 ||
    (Run(cfg, s, evs[..|evs| - 1]) && Legal(cfg, Exec(cfg, s, evs[..|evs| - 1]), evs[|evs| - 1]))
  }

  function ReplyTo(cfg: Config, s: State, ev: Event): (r: Reply) {
    Step(cfg, s.m, ev).1
  }

  /** Every answer of a run, call by call. */
  function Replies(cfg: Config, s: State, evs: seq<Event>): (rs: seq<Reply>)
    ensures |rs| == |evs|
  {
    if |evs| == 0 then []
    else
      var front := evs[..|evs| - 1];
      Replies(cfg, s, front) + [ReplyTo(cfg, Exec(cfg, s, front), evs[|evs| - 1])]
  }

  lemma {:induction false} ReplyAt(cfg: Config, s: State, evs: seq<Event>, i: nat)
    requires i < |evs|
    ensures Replies(cfg, s, evs)[i] == ReplyTo(cfg, Exec(cfg, s, evs[..i]), evs[i])
  {
    if i < |evs| - 1 {
      ReplyAt(cfg, s, evs[..|evs| - 1], i);
      assert evs[..|evs| - 1][..i] == evs[..i];
    }
  }

  lemma RunAppends(cfg: Config, s: State, evs: seq<Event>, ev: Event)
    requires Run(cfg, s, evs) && Legal(cfg, Exec(cfg, s, evs), ev)
    ensures Run(cfg, s, evs + [ev])
    ensures Exec(cfg, s, evs + [ev]) == Next(cfg, Exec(cfg, s, evs), ev)
    ensures Replies(cfg, s, evs + [ev]) == Replies(cfg, s, evs) + [ReplyTo(cfg, Exec(cfg, s, evs), ev)]
  {
    assert (evs + [ev])[..|evs|] == evs;
  }

  // ----- Sweeps -----

  /** What a sweep between instants lo and hi promises, whatever its order and its clock readings. */
  ghost predicate Swept(m: Resident, m': Resident, lo: int, hi: int) {
    && (forall k :: k in m' ==> k in m && m'[k] == m[k] && !Expired(m[k], lo))
    && (forall k :: k in m && k !in m' ==> Expired(m[k], hi))
  }

  lemma {:induction false} SweepKeepsSurvivors(m: Resident, visits: seq<Visit>, lo: int, hi: int)
    requires Paced(visits, lo, hi)
    ensures forall k :: k in StepSweep(m, visits) ==>
              k in m && StepSweep(m, visits)[k] == m[k] && (k in KeysOf(visits) ==> !Expired(m[k], lo))
    ensures forall k :: k in m && k !in StepSweep(m, visits) ==> Expired(m[k], hi)
  {
    if |visits| > 0 {
      SweepKeepsSurvivors(m, visits[..|visits| - 1], lo, visits[|visits| - 1].at);
    }
  }

  /** DeleteExpired, with the clock free to advance between visits. */
  lemma SweepIsExact(m: Resident, visits: seq<Visit>, lo: int, hi: int)
    requires GoodVisits(m, visits, lo, hi)
    ensures Swept(m, StepSweep(m, visits), lo, hi)
  {
    SweepKeepsSurvivors(m, visits, lo, hi);
  }

  // ----- What one event does to one key -----

  predicate Touches(op: Op, k: Key) {
    !op.Flush? && !op.Sweep? && op.key == k
  }

  /** The operation gets as far as writing its key back. */
  predicate Admits(m: Resident, op: Op) {
    match op
    case Set(_, _, _) => true
    case Add(k, _, _) => k !in m
    case Replace(k, _, _) => k in m
    case Update(k, _) => k in m
    case Tally(k, _) => k in m && m[k].data.Int?
    case _ => false
  }

  /** An event that is not about k keeps its entry or drops it, and drops it only for a reason. */
  lemma OtherKeyKept(cfg: Config, s: State, ev: Event, k: Key)
    requires Timely(s, ev) && !Touches(ev.op, k)
    ensures var m' := Step(cfg, s.m, ev).0;
            && (k in m' ==> k in s.m && m'[k] == s.m[k] && (ev.op.Sweep? ==> !Expired(m'[k], s.clock)))
            && (k in s.m && k !in m' ==>
                  || (Admits(s.m, ev.op) && k in ev.gone) || ev.op.Flush?
                  || (ev.op.Sweep? && Expired(s.m[k], ev.now)))
  {
    if ev.op.Sweep? {
      SweepIsExact(s.m, ev.op.visits, s.clock, ev.now);
    }
  }

  // ----- The size bound -----

  lemma FewerKeys(a: Resident, b: Resident)
    requires a.Keys <= b.Keys
    ensures |a| <= |b|
    ensures a.Keys != b.Keys ==> |a| < |b|
  {
    assert b.Keys == a.Keys + (b.Keys - a.Keys);
    if a.Keys != b.Keys {
      var k :| k in b.Keys - a.Keys;
    }
  }

  lemma AdmitFits(size: nat, m: Resident, k: Key, e: Entry, gone: set<Key>)
    requires |m| <= size && MakesRoom(size, m, k, gone)
    ensures |Admit(m, k, e, gone)| <= size
  {
    var kept, m' := m - gone, Admit(m, k, e, gone);
    FewerKeys(kept, m);
    if k in m {
      FewerKeys(m', m);
    } else {
      assert m'.Keys == kept.Keys + {k};
      if |m| == size {
        var v :| v in gone * m.Keys;
        assert v !in kept.Keys;
      }
    }
  }

  /** No event takes the store beyond its size, as long as its bounded map makes room. */
  lemma StepFits(cfg: Config, s: State, ev: Event)
    requires Legal(cfg, s, ev) && |s.m| <= cfg.size
    ensures |Step(cfg, s.m, ev).0| <= cfg.size
  {
    if Admits(s.m, ev.op) {
      var k := ev.op.key;
      AdmitFits(cfg.size, s.m, k, Step(cfg, s.m, ev).0[k], ev.gone);
      assert Step(cfg, s.m, ev).0 == Admit(s.m, k, Step(cfg, s.m, ev).0[k], ev.gone);
    } else {
      forall k | k in Step(cfg, s.m, ev).0 ensures k in s.m {
        if !Touches(ev.op, k) {
          OtherKeyKept(cfg, s, ev, k);
        }
      }
      FewerKeys(Step(cfg, s.m, ev).0, s.m);
    }
  }

  // ----- Building up a sweep -----

  lemma VisitAppends(m: Resident, visits: seq<Visit>, v: Visit, lo: int, hi: int)
    requires Paced(visits, lo, hi) && lo <= hi <= v.at
    ensures Paced(visits + [v], lo, v.at)
    ensures KeysOf(visits + [v]) == KeysOf(visits) + [v.key]
    ensures StepSweep(m, visits + [v]) == StepVisit(StepSweep(m, visits), v)
  {
    assert (visits + [v])[..|visits|] == visits;
  }
}
