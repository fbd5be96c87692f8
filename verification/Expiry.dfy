/** Expiry over whole runs: no revival, lifetimes, and what the residency-only tests cost. */
module Expiry {
  import opened GoNumbers
  import opened Counters
  import opened Entries
  import opened StoreSpec

  /** A write that stamps k afresh (or with the caller's stamps). */
  predicate BaseWrite(op: Op, k: Key) {
    Touches(op, k) && (op.Set? || op.Add? || op.Replace? || op.Update?)
  }

  /** If k is resident, it carries these stamps. */
  predicate Carries(m: Resident, k: Key, timeAdded: int64, expiresAt: int64) {
    k in m ==> m[k].timeAdded == timeAdded && m[k].expiresAt == expiresAt
  }

  /** Without a base write to k no event can change the stamps k carries. */
  lemma {:induction false} StampsStay(cfg: Config, s: State, evs: seq<Event>, k: Key, ta: int64, ea: int64)
    requires Run(cfg, s, evs) && Carries(s.m, k, ta, ea)
    requires forall ev <- evs :: !BaseWrite(ev.op, k)
    ensures Carries(Exec(cfg, s, evs).m, k, ta, ea)
    ensures s.clock <= Exec(cfg, s, evs).clock
  {
    if |evs| > 0 {
      var front, last := evs[..|evs| - 1], evs[|evs| - 1];
      StampsStay(cfg, s, front, k, ta, ea);
      assert last in evs;
      if !Touches(last.op, k) {
        OtherKeyKept(cfg, Exec(cfg, s, front), last, k);
      }
    }
  }

  /**
   * No revival: once the entry of k is expired, no run without a base write to k (so any mix of Get, Delete,
   * Increment, Decrement, Flush, sweeps, evictions and anything on other keys) lets a Get of k hit.
   */
  lemma {:induction false} NoRevival(cfg: Config, s: State, evs: seq<Event>, k: Key, want: Want,
                                     now: int, gone: set<Key>)
    requires k in s.m && Expired(s.m[k], s.clock)
    requires Run(cfg, s, evs) && forall ev <- evs :: !BaseWrite(ev.op, k)
    requires now >= Exec(cfg, s, evs).clock
    ensures ReplyTo(cfg, Exec(cfg, s, evs), Event(Get(k, want), now, gone)) == Failed(CacheMiss)
  {
    StampsStay(cfg, s, evs, k, s.m[k].timeAdded, s.m[k].expiresAt);
  }

  predicate Stamping(op: Op) {
    op.Set? || op.Add? || op.Replace?
  }

  /** Nothing in the run could drop k early: no Delete, no Flush, never a victim. */
  ghost predicate LeftAlone(evs: seq<Event>, k: Key) {
    forall ev <- evs :: !BaseWrite(ev.op, k) && !ev.op.Flush? && ev.op != Delete(k) && k !in ev.gone
  }

  lemma {:induction false} StaysUntilExpired(cfg: Config, s: State, evs: seq<Event>, k: Key)
    requires Run(cfg, s, evs) && k in s.m && LeftAlone(evs, k)
    ensures var s' := Exec(cfg, s, evs);
            k in s'.m || Expired(s.m[k], s'.clock)
  {
    if |evs| > 0 {
      var front, last := evs[..|evs| - 1], evs[|evs| - 1];
      StaysUntilExpired(cfg, s, front, k);
      StampsStay(cfg, s, front, k, s.m[k].timeAdded, s.m[k].expiresAt);
      assert last in evs;
      if !Touches(last.op, k) {
        OtherKeyKept(cfg, Exec(cfg, s, front), last, k);
      }
    }
  }

  /**
   * The lifetime promise over runs.  After a successful Set, Add or Replace of k at instant w for d > 0
   * nanoseconds, given or by default, followed by any run without a base write to k, a Get at t > w + d never
   * hits; and if nothing dropped k, a Get no later than w + d - 2s (w + d - 1s for whole seconds) always finds it.
   */
  lemma {:induction false} LifetimeOverRuns(cfg: Config, s: State, write: Event, evs: seq<Event>, want: Want,
                                            t: int, gone: set<Key>)
    requires Stamping(write.op) && Legal(cfg, s, write) && ReplyTo(cfg, s, write) == Done
    requires InRange(write.now, Lasting(write.op.exp, cfg.defaultExp)) && write.op.exp >= 0
    requires Run(cfg, Next(cfg, s, write), evs) && forall ev <- evs :: !BaseWrite(ev.op, write.op.key)
    requires t >= Exec(cfg, Next(cfg, s, write), evs).clock
    ensures var k, w, d := write.op.key, write.now, Lasting(write.op.exp, cfg.defaultExp);
            var s' := Exec(cfg, Next(cfg, s, write), evs);
            var reply := ReplyTo(cfg, s', Event(Get(k, want), t, gone));
            && (t > w + d ==> reply == Failed(CacheMiss))
            && (LeftAlone(evs, k) && (t <= w + d - 2 * SECOND || (d % SECOND == 0 && t <= w + d - SECOND)) ==>
                  k in s'.m && reply == Deliver(s'.m[k], want))
  {
    var k, s1 := write.op.key, Next(cfg, s, write);
    ExpiryInstant(write.op.given, write.now, Lasting(write.op.exp, cfg.defaultExp), cfg.defaultExp, t);
    StampsStay(cfg, s1, evs, k, s1.m[k].timeAdded, s1.m[k].expiresAt);
    if LeftAlone(evs, k) {
      StaysUntilExpired(cfg, s1, evs, k);
    }
  }

  // ----- The ideal time-to-live map -----

  /** What an ideal time-to-live map holds: expired entries are simply not there. */
  function Live(m: Resident, now: int): (l: Resident) {
    map k | k in m && !Expired(m[k], now) :: m[k]
  }

  predicate Stale(m: Resident, k: Key, now: int) {
    k in m && Expired(m[k], now)
  }

  function IfPresent(l: Resident, k: Key, there: (Resident, Reply), missing: (Resident, Reply))
    : (r: (Resident, Reply))
  {
    if k in l then there else missing
  }

  /** The operations of the ideal map: plain map operations on the live entries, with no expiry test anywhere. */
  function IdealStep(cfg: Config, l: Resident, ev: Event): (r: (Resident, Reply)) {
    var now, gone := ev.now, ev.gone;
    match ev.op
    case Get(k, want) => (l, if k in l then Deliver(l[k], want) else Failed(CacheMiss))
    case Set(k, g, exp) => (Admit(l, k, Stamp(g, exp, cfg.defaultExp, now), gone), Done)
    case Add(k, g, exp) =>
      IfPresent(l, k, (l, Failed(NotStored)), (Admit(l, k, Stamp(g, exp, cfg.defaultExp, now), gone), Done))
    case Replace(k, g, exp) =>
      IfPresent(l, k, (Admit(l, k, Stamp(g, exp, cfg.defaultExp, now), gone), Done), (l, Failed(NotStored)))
    case Update(k, e) => IfPresent(l, k, (Admit(l, k, e, gone), Done), (l, Failed(NotStored)))
    case Delete(k) => IfPresent(l, k, (l - {k}, Done), (l, Failed(CacheMiss)))
    case Tally(k, c) =>
      if k !in l then (l, Failed(CacheMiss))
      else if !l[k].data.Int? then (l, Failed(NotSupported))
      else
        var v := Count(l[k].data.i, c);
        (Admit(l, k, l[k].(data := Int(v)), gone), Counted(AsUint64(v)))
    case Flush => (map[], Done)
    case Sweep(_) => (l, Done)
  }

  /**
   * The exact cost of testing residency instead of expiry: a call is answered as the ideal map would answer
   * it if and only if it is a Get, Set, Flush or sweep, or its key is not expired-but-still-resident.
   */
  lemma {:induction false} AnswersAreIdealIff(cfg: Config, m: Resident, ev: Event)
    ensures Step(cfg, m, ev).1 == IdealStep(cfg, Live(m, ev.now), ev).1
            <==> ev.op.Get? || ev.op.Set? || ev.op.Flush? || ev.op.Sweep? || !Stale(m, ev.op.key, ev.now)
  {
  }

  /**
   * Right after a sweep, with the clock unmoved, every client operation gives the reply of the ideal map and
   * leaves exactly the ideal map's contents.
   */
  lemma {:induction false} IdealAfterSweep(cfg: Config, m: Resident, visits: seq<Visit>, ev: Event)
    requires GoodVisits(m, visits, ev.now, ev.now) && !ev.op.Sweep?
    ensures Step(cfg, StepSweep(m, visits), ev) == IdealStep(cfg, Live(m, ev.now), ev)
  {
    SweepIsExact(m, visits, ev.now, ev.now);
    assert StepSweep(m, visits) == Live(m, ev.now);
  }

  // ----- Whole runs against the ideal map -----

  /** The ideal map over a run: pruned at each reading, then operated on. */
  function IdealExec(cfg: Config, l: Resident, evs: seq<Event>): (l': Resident) {
    if |evs| == 0 then l
    else
      var last := evs[|evs| - 1];
      IdealStep(cfg, Live(IdealExec(cfg, l, evs[..|evs| - 1]), last.now), last).0
  }

  function IdealReplies(cfg: Config, l: Resident, evs: seq<Event>): (rs: seq<Reply>)
    ensures |rs| == |evs|
  {
    if |evs| == 0 then []
    else
      var front, last := evs[..|evs| - 1], evs[|evs| - 1];
      IdealReplies(cfg, l, front) + [IdealStep(cfg, Live(IdealExec(cfg, l, front), last.now), last).1]
  }

  lemma {:induction false} IdealReplyAt(cfg: Config, l: Resident, evs: seq<Event>, i: nat)
    requires i < |evs|
    ensures IdealReplies(cfg, l, evs)[i]
            == IdealStep(cfg, Live(IdealExec(cfg, l, evs[..i]), evs[i].now), evs[i]).1
  {
    if i < |evs| - 1 {
      IdealReplyAt(cfg, l, evs[..|evs| - 1], i);
      assert evs[..|evs| - 1][..i] == evs[..i];
    }
  }

  /** The operations that test residency where the ideal map would test expiry. */
  predicate TestsResidency(op: Op) {
    op.Add? || op.Replace? || op.Update? || op.Delete? || op.Tally?
  }

  /** Event i finds its key expired but still resident. */
  predicate MeetsStale(cfg: Config, s: State, evs: seq<Event>, i: nat)
    requires i < |evs|
  {
    TestsResidency(evs[i].op) && Stale(Exec(cfg, s, evs[..i]).m, evs[i].op.key, evs[i].now)
  }

  /** What is live later is decided by what is live now. */
  lemma LiveLater(m: Resident, l: Resident, t: int, t': int)
    requires t <= t' && Live(m, t) == Live(l, t)
    ensures Live(m, t') == Live(l, t')
  {
    forall k | k in Live(m, t') ensures k in Live(l, t') && Live(l, t')[k] == m[k] {
      assert k in Live(m, t);
    }
    forall k | k in Live(l, t') ensures k in Live(m, t') {
      assert k in Live(l, t);
    }
  }

  lemma AdmitLive(m: Resident, k: Key, e: Entry, gone: set<Key>, now: int)
    ensures Live(Admit(m, k, e, gone), now) == Live(Admit(Live(m, now), k, e, gone), now)
  {
  }

  lemma {:induction false} StepStaysIdeal(cfg: Config, s: State, ev: Event)
    requires Timely(s, ev) && (TestsResidency(ev.op) ==> !Stale(s.m, ev.op.key, ev.now))
    ensures var l := Live(s.m, ev.now);
            && Step(cfg, s.m, ev).1 == IdealStep(cfg, l, ev).1
            && Live(Step(cfg, s.m, ev).0, ev.now) == Live(IdealStep(cfg, l, ev).0, ev.now)
  {
    AnswersAreIdealIff(cfg, s.m, ev);
    var m', l' := Step(cfg, s.m, ev).0, IdealStep(cfg, Live(s.m, ev.now), ev).0;
    if Admits(s.m, ev.op) {
      var k := ev.op.key;
      AdmitLive(s.m, k, m'[k], ev.gone, ev.now);
      assert m' == Admit(s.m, k, m'[k], ev.gone);
      assert l' == Admit(Live(s.m, ev.now), k, m'[k], ev.gone);
    } else if ev.op.Sweep? {
      SweepIsExact(s.m, ev.op.visits, s.clock, ev.now);
    }
  }

  lemma {:induction false} RunStaysIdeal(cfg: Config, s: State, evs: seq<Event>)
    requires Run(cfg, s, evs) && forall i :: 0 <= i < |evs| ==> !MeetsStale(cfg, s, evs, i)
    ensures var s' := Exec(cfg, s, evs);
            Live(s'.m, s'.clock) == Live(IdealExec(cfg, Live(s.m, s.clock), evs), s'.clock)
    ensures Replies(cfg, s, evs) == IdealReplies(cfg, Live(s.m, s.clock), evs)
  {
    if |evs| == 0 {
      assert Live(Live(s.m, s.clock), s.clock) == Live(s.m, s.clock);
    } else {
      var front, last := evs[..|evs| - 1], evs[|evs| - 1];
      forall i | 0 <= i < |front| ensures !MeetsStale(cfg, s, front, i) {
        assert front[..i] == evs[..i] && !MeetsStale(cfg, s, evs, i);
      }
      RunStaysIdeal(cfg, s, front);
      var s1 := Exec(cfg, s, front);
      LiveLater(s1.m, IdealExec(cfg, Live(s.m, s.clock), front), s1.clock, last.now);
      assert !MeetsStale(cfg, s, evs, |evs| - 1);
      StepStaysIdeal(cfg, s1, last);
    }
  }

  /**
   * Over a whole run every answer is that of the ideal time-to-live map if and only if no Add, Replace, Update,
   * Delete, Increment or Decrement of the run meets a key that is expired but still resident.
   */
  lemma {:induction false} RunIsIdealIff(cfg: Config, s: State, evs: seq<Event>)
    requires Run(cfg, s, evs)
    ensures Replies(cfg, s, evs) == IdealReplies(cfg, Live(s.m, s.clock), evs)
            <==> forall i :: 0 <= i < |evs| ==> !MeetsStale(cfg, s, evs, i)
  {
    if forall i :: 0 <= i < |evs| ==> !MeetsStale(cfg, s, evs, i) {
      RunStaysIdeal(cfg, s, evs);
    } else {
      var i :| 0 <= i < |evs| && MeetsStale(cfg, s, evs, i);
      FirstStaleDiffers(cfg, s, evs, i);
    }
  }

  /** The first event to meet a stale key is answered differently. */
  lemma {:induction false} FirstStaleDiffers(cfg: Config, s: State, evs: seq<Event>, i: nat)
    requires Run(cfg, s, evs) && i < |evs| && MeetsStale(cfg, s, evs, i)
    ensures Replies(cfg, s, evs) != IdealReplies(cfg, Live(s.m, s.clock), evs)
    decreases i
  {
    if n :| 0 <= n < i && MeetsStale(cfg, s, evs, n) {
      FirstStaleDiffers(cfg, s, evs, n);
    } else {
      var front, l := evs[..i], Live(s.m, s.clock);
      PrefixRuns(cfg, s, evs, i);
      forall n | 0 <= n < |front| ensures !MeetsStale(cfg, s, front, n) {
        assert front[..n] == evs[..n] && front[n] == evs[n];
        assert !MeetsStale(cfg, s, evs, n);
      }
      RunStaysIdeal(cfg, s, front);
      var s1 := Exec(cfg, s, front);
      LiveLater(s1.m, IdealExec(cfg, l, front), s1.clock, evs[i].now);
      AnswersAreIdealIff(cfg, s1.m, evs[i]);
      ReplyAt(cfg, s, evs, i);
      IdealReplyAt(cfg, l, evs, i);
    }
  }

  lemma {:induction false} PrefixRuns(cfg: Config, s: State, evs: seq<Event>, i: nat)
    requires Run(cfg, s, evs) && i < |evs|
    ensures Run(cfg, s, evs[..i]) && Legal(cfg, Exec(cfg, s, evs[..i]), evs[i])
  {
    if i < |evs| - 1 {
      PrefixRuns(cfg, s, evs[..|evs| - 1], i);
      assert evs[..|evs| - 1][..i] == evs[..i];
    }
  }

  /** What repeated Increments and Decrements of k amount to, in order. */
  function TalliesOf(evs: seq<Event>, k: Key): (cs: seq<CounterOp>) {
    if |evs| == 0 then []
    else
      var last := evs[|evs| - 1];
      TalliesOf(evs[..|evs| - 1], k) + if last.op.Tally? && last.op.key == k then [last.op.delta] else []
  }

  lemma CounterStep(cfg: Config, s: State, ev: Event, k: Key)
    requires Timely(s, ev) && LeftAlone([ev], k)
    requires k in s.m && s.m[k].data.Int? && !Expired(s.m[k], ev.now)
    ensures var m', v := Step(cfg, s.m, ev).0, s.m[k].data.i;
            var v' := if ev.op.Tally? && ev.op.key == k then Count(v, ev.op.delta) else v;
            k in m' && m'[k] == s.m[k].(data := Int(v'))
  {
    assert ev in [ev];
    if !Touches(ev.op, k) {
      OtherKeyKept(cfg, s, ev, k);
    }
  }

  /**
   * A counter left alone by everything but Increment, Decrement and (while it is unexpired) Get and sweeps
   * ends up as the fold of its own operations, stamps untouched.
   */
  lemma {:induction false} CounterOverRuns(cfg: Config, s: State, evs: seq<Event>, k: Key)
    requires Run(cfg, s, evs) && k in s.m && s.m[k].data.Int? && LeftAlone(evs, k)
    requires !Expired(s.m[k], Exec(cfg, s, evs).clock)
    ensures var s' := Exec(cfg, s, evs);
            k in s'.m && s'.m[k] == s.m[k].(data := Int(Fold(s.m[k].data.i, TalliesOf(evs, k))))
  {
    if |evs| > 0 {
      var front, last := evs[..|evs| - 1], evs[|evs| - 1];
      var s1 := Exec(cfg, s, front);
      if Expired(s.m[k], s1.clock) {
        ExpiryIsForGood(s.m[k], s1.clock, last.now);
      }
      CounterOverRuns(cfg, s, front, k);
      assert last in evs;
      CounterStep(cfg, s1, last, k);
      var cs := TalliesOf(evs, k);
      if cs != TalliesOf(front, k) {
        assert cs[..|cs| - 1] == TalliesOf(front, k);
      }
    }
  }
}
