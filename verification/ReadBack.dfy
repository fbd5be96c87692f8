/**
 * What calls on the store give back, in terms of what earlier calls were given: the values, stamps and errors a
 * caller sees, told without the functions that build and deliver entries.
 */
module ReadBack {
  import opened GoNumbers
  import opened Counters
  import opened Entries
  import opened StoreSpec
  import opened Expiry

  /** The caller handed over v, bare or as the data of an entry. */
  predicate Gives(g: Given, v: Value) {
    g == Bare(v) || (g.Wrapped? && g.e.data == v)
  }

  /** A successful write of v under k. */
  ghost predicate Wrote(cfg: Config, s: State, write: Event, k: Key, v: Value) {
    && Stamping(write.op) && write.op.key == k && Gives(write.op.given, v)
    && Legal(cfg, s, write) && ReplyTo(cfg, s, write) == Done
  }

  lemma ValueStep(cfg: Config, s: State, ev: Event, k: Key)
    requires Timely(s, ev) && LeftAlone([ev], k)
    requires k in s.m && !s.m[k].data.Int? && !Expired(s.m[k], ev.now)
    ensures var m' := Step(cfg, s.m, ev).0; k in m' && m'[k] == s.m[k]
  {
    assert ev in [ev];
    if !Touches(ev.op, k) {
      OtherKeyKept(cfg, s, ev, k);
    }
  }

  /** What is no counter and left alone stays as it is until it expires. */
  lemma {:induction false} ValueOverRuns(cfg: Config, s: State, evs: seq<Event>, k: Key)
    requires Run(cfg, s, evs) && k in s.m && !s.m[k].data.Int? && LeftAlone(evs, k)
    requires !Expired(s.m[k], Exec(cfg, s, evs).clock)
    ensures var s' := Exec(cfg, s, evs); k in s'.m && s'.m[k] == s.m[k]
  {
    if |evs| > 0 {
      var front, last := evs[..|evs| - 1], evs[|evs| - 1];
      ValueOverRuns(cfg, s, front, k);
      assert last in evs;
      ValueStep(cfg, Exec(cfg, s, front), last, k);
    }
  }

  /** What v has become after the Increments and Decrements of a run. */
  function Tallied(v: Value, evs: seq<Event>, k: Key): (v': Value) {
    if v.Int? then Int(Fold(v.i, TalliesOf(evs, k))) else v
  }

  /** Whatever its type, an unexpired entry left alone keeps its stamps and changes by its own counter operations. */
  lemma {:induction false} StaysTallied(cfg: Config, s: State, evs: seq<Event>, k: Key, t: int)
    requires Run(cfg, s, evs) && k in s.m && LeftAlone(evs, k)
    requires t >= Exec(cfg, s, evs).clock && !Expired(s.m[k], t)
    ensures var s' := Exec(cfg, s, evs);
            k in s'.m && s'.m[k] == s.m[k].(data := Tallied(s.m[k].data, evs, k))
  {
    if s.m[k].data.Int? {
      CounterOverRuns(cfg, s, evs, k);
    } else {
      ValueOverRuns(cfg, s, evs, k);
    }
  }

  /** The answer to a Get of k at t. */
  function Got(cfg: Config, s: State, k: Key, t: int, want: Want): (r: Reply) {
    ReplyTo(cfg, s, Event(Get(k, want), t, {}))
  }

  /** The write of k is found by every kind of Get, with these data and stamps. */
  ghost predicate Found(cfg: Config, s: State, k: Key, t: int, v: Value, added: int64, expires: int64) {
    && Got(cfg, s, k, t, WantEntry) == HitEntry(Entry(v, added, expires))
    && Got(cfg, s, k, t, WantString) == (if v.Str? then HitValue(v) else Panicked)
    && Got(cfg, s, k, t, WantInt) == (if v.Int? then HitValue(v) else Panicked)
    && Got(cfg, s, k, t, WantPage) == (if v.Page? then HitValue(v) else Panicked)
    && Got(cfg, s, k, t, WantOther) == Failed(NotSupported)
  }

  lemma UnexpiredIsFound(cfg: Config, s: State, k: Key, t: int)
    requires k in s.m && !Expired(s.m[k], t)
    ensures Found(cfg, s, k, t, s.m[k].data, s.m[k].timeAdded, s.m[k].expiresAt)
  {
  }

  lemma ExpiredIsAbsent(cfg: Config, s: State, k: Key, t: int)
    requires k in s.m ==> Expired(s.m[k], t)
    ensures Absent(cfg, s, k, t)
  {
  }

  /** Nothing is found, whatever kind of Get asks. */
  ghost predicate Absent(cfg: Config, s: State, k: Key, t: int) {
    forall want :: Got(cfg, s, k, t, want) == Failed(CacheMiss)
  }

  /** The duration is FOREVER, or a positive one short of overflow, given or by default. */
  predicate Usual(w: int, exp: int64, def: int64) {
    if exp == FOREVER then SECOND <= w && w / SECOND < TWO_63 else exp >= 0 && InRange(w, Lasting(exp, def))
  }

  /** The last instant at which a write at w for d is still found. */
  function LastInstant(w: int, d: int64): (t: int) {
    w + d - w % SECOND - d % SECOND
  }

  lemma StampOfWrite(cfg: Config, s: State, write: Event, k: Key, v: Value, t: int)
    requires Wrote(cfg, s, write, k, v) && Usual(write.now, write.op.exp, cfg.defaultExp)
    ensures var w, exp, d := write.now, write.op.exp, Lasting(write.op.exp, cfg.defaultExp);
            var m := Next(cfg, s, write).m;
            && k in m && m[k] == Entry(v, w / SECOND, if exp == FOREVER then 0 else w / SECOND + d / SECOND)
            && (Expired(m[k], t) <==> exp != FOREVER && t > LastInstant(w, d))
  {
  }

  /**
   * A value that was written is the value that is read.  After a successful Set, Add or Replace of v under k at
   * instant w, and any run that leaves k alone but may read and count it, a Get finds exactly v (for an integer: v
   * after the Increments and Decrements in between) with the second of the write and the second it ends, up to the
   * last instant of its duration; afterwards every Get misses.  A string, integer or page is delivered into its own
   * type and panics in another.
   */
  lemma {:induction false} WrittenIsRead(cfg: Config, s: State, write: Event, k: Key, v: Value, evs: seq<Event>, t: int)
    requires Wrote(cfg, s, write, k, v) && Usual(write.now, write.op.exp, cfg.defaultExp)
    requires Run(cfg, Next(cfg, s, write), evs) && LeftAlone(evs, k)
    requires t >= Exec(cfg, Next(cfg, s, write), evs).clock
    ensures var w, exp, d := write.now, write.op.exp, Lasting(write.op.exp, cfg.defaultExp);
            var s' := Exec(cfg, Next(cfg, s, write), evs);
            if exp == FOREVER then Found(cfg, s', k, t, Tallied(v, evs, k), w / SECOND, 0)
            else if t <= LastInstant(w, d)
            then Found(cfg, s', k, t, Tallied(v, evs, k), w / SECOND, w / SECOND + d / SECOND)
            else Absent(cfg, s', k, t)
  {
    var s1 := Next(cfg, s, write);
    var s' := Exec(cfg, s1, evs);
    StampOfWrite(cfg, s, write, k, v, t);
    var e := s1.m[k];
    if Expired(e, t) {
      StampsStay(cfg, s1, evs, k, e.timeAdded, e.expiresAt);
      ExpiredIsAbsent(cfg, s', k, t);
    } else {
      StaysTallied(cfg, s1, evs, k, t);
      UnexpiredIsFound(cfg, s', k, t);
    }
  }

  /**
   * A counter operation answers what the next Get of the counter delivers, as an unsigned word; on what is no
   * integer it answers "not supported" and leaves it so.
   */
  lemma {:induction false} CounterAnswersNewValue(cfg: Config, s: State, tally: Event, k: Key, t: int)
    requires tally.op.Tally? && tally.op.key == k && Legal(cfg, s, tally) && k in s.m && !Expired(s.m[k], t)
    ensures var before, after := Got(cfg, s, k, t, WantInt), Got(cfg, Next(cfg, s, tally), k, t, WantInt);
            var r := ReplyTo(cfg, s, tally);
            if before.Panicked? then r == Failed(NotSupported) && after == before
            else r.Counted? && after == HitValue(Int(Wrap64(r.u)))
  {
  }

  /**
   * Calls that test residency take the key for present until something removes it, however long it has been expired:
   * Add is refused and changes nothing, while Replace, Update and Delete succeed.
   */
  lemma {:induction false} WrittenIsHeld(cfg: Config, s: State, write: Event, k: Key, v: Value, evs: seq<Event>,
                                         now: int, gone: set<Key>)
    requires Wrote(cfg, s, write, k, v) && Run(cfg, Next(cfg, s, write), evs)
    requires forall ev <- evs :: !Touches(ev.op, k) && !ev.op.Flush? && !ev.op.Sweep? && k !in ev.gone
    ensures var s' := Exec(cfg, Next(cfg, s, write), evs);
            && (forall g, exp :: Step(cfg, s'.m, Event(Add(k, g, exp), now, gone)) == (s'.m, Failed(NotStored)))
            && (forall g, exp :: ReplyTo(cfg, s', Event(Replace(k, g, exp), now, gone)) == Done)
            && (forall e :: ReplyTo(cfg, s', Event(Update(k, e), now, gone)) == Done)
            && ReplyTo(cfg, s', Event(Delete(k), now, gone)) == Done
  {
    StaysHeld(cfg, Next(cfg, s, write), evs, k);
  }

  lemma {:induction false} StaysHeld(cfg: Config, s: State, evs: seq<Event>, k: Key)
    requires k in s.m && Run(cfg, s, evs)
    requires forall ev <- evs :: !Touches(ev.op, k) && !ev.op.Flush? && !ev.op.Sweep? && k !in ev.gone
    ensures k in Exec(cfg, s, evs).m
  {
    if |evs| > 0 {
      var front, last := evs[..|evs| - 1], evs[|evs| - 1];
      StaysHeld(cfg, s, front, k);
      assert last in evs;
      OtherKeyKept(cfg, Exec(cfg, s, front), last, k);
    }
  }

  /** The calls after which k is gone: a Delete, a Flush, or a Get that missed, whether k was expired or not there. */
  predicate Clears(cfg: Config, s: State, ev: Event, k: Key) {
    ev.op == Delete(k) || ev.op.Flush? || (ev.op.Get? && ev.op.key == k && ReplyTo(cfg, s, ev) == Failed(CacheMiss))
  }

  /** How a store that does not hold k answers: only Add and Set succeed. */
  ghost predicate AnswersAsGone(cfg: Config, s: State, k: Key, now: int, gone: set<Key>) {
    && Absent(cfg, s, k, now)
    && ReplyTo(cfg, s, Event(Delete(k), now, gone)) == Failed(CacheMiss)
    && (forall c :: ReplyTo(cfg, s, Event(Tally(k, c), now, gone)) == Failed(CacheMiss))
    && (forall e :: ReplyTo(cfg, s, Event(Update(k, e), now, gone)) == Failed(NotStored))
    && (forall g, exp :: ReplyTo(cfg, s, Event(Replace(k, g, exp), now, gone)) == Failed(NotStored))
    && (forall g, exp :: ReplyTo(cfg, s, Event(Add(k, g, exp), now, gone)) == Done)
    && (forall g, exp :: ReplyTo(cfg, s, Event(Set(k, g, exp), now, gone)) == Done)
  }

  /**
   * A missed Get clears the way like a Delete: afterwards, and after any run that does not write k, every call on k
   * is answered as if it had never been there, even if it was an expired entry that Add would have tripped over.
   */
  lemma {:induction false} MissClearsTheWay(cfg: Config, s: State, ev: Event, evs: seq<Event>, k: Key,
                                            now: int, gone: set<Key>)
    requires Clears(cfg, s, ev, k)
    requires Run(cfg, Next(cfg, s, ev), evs) && forall x <- evs :: !BaseWrite(x.op, k)
    ensures AnswersAsGone(cfg, Exec(cfg, Next(cfg, s, ev), evs), k, now, gone)
  {
    StaysGone(cfg, Next(cfg, s, ev), evs, k);
  }

  lemma {:induction false} StaysGone(cfg: Config, s: State, evs: seq<Event>, k: Key)
    requires k !in s.m && Run(cfg, s, evs) && forall x <- evs :: !BaseWrite(x.op, k)
    ensures k !in Exec(cfg, s, evs).m
  {
    if |evs| > 0 {
      var front, last := evs[..|evs| - 1], evs[|evs| - 1];
      StaysGone(cfg, s, front, k);
      assert last in evs;
      if !Touches(last.op, k) {
        OtherKeyKept(cfg, Exec(cfg, s, front), last, k);
      }
    }
  }
}
