/**
 * The store refines a plain map of last successful writes.  The plain map is computed from the calls and
 * their replies alone: it knows nothing of residency, eviction or expiry.
 */
module LastWrites {
  import opened Counters
  import opened Entries
  import opened StoreSpec

  /** One line of what a client can observe: the event and the reply it got. */
  datatype Seen = Seen(ev: Event, reply: Reply)

  function Trace(cfg: Config, s: State, evs: seq<Event>): (tr: seq<Seen>) {
    if |evs| == 0 then []
    else
      var front := evs[..|evs| - 1];
      Trace(cfg, s, front) + [Seen(evs[|evs| - 1], ReplyTo(cfg, Exec(cfg, s, front), evs[|evs| - 1]))]
  }

  /** The last value successfully written to each key since its last Delete or Flush. */
  function History(cfg: Config, tr: seq<Seen>): (h: Resident) {
    if |tr| == 0 then map[] else Remember(cfg, History(cfg, tr[..|tr| - 1]), tr[|tr| - 1])
  }

  function Remember(cfg: Config, h: Resident, x: Seen): (h': Resident) {
    match x.ev.op
    case Set(k, g, exp) => h[k := Stamp(g, exp, cfg.defaultExp, x.ev.now)]
    case Add(k, g, exp) => if x.reply == Done then h[k := Stamp(g, exp, cfg.defaultExp, x.ev.now)] else h
    case Replace(k, g, exp) => if x.reply == Done then h[k := Stamp(g, exp, cfg.defaultExp, x.ev.now)] else h
    case Update(k, e) => if x.reply == Done then h[k := e] else h
    case Tally(k, c) =>
      if x.reply.Counted? && k in h && h[k].data.Int? then h[k := h[k].(data := Int(Count(h[k].data.i, c)))]
      else h
    case Delete(k) => h - {k}
    case Flush => map[]
    case Get(_, _) => h
    case Sweep(_) => h
  }

  predicate Stored(x: Seen) {
    match x.ev.op
    case Set(_, _, _) => true
    case Add(_, _, _) => x.reply == Done
    case Replace(_, _, _) => x.reply == Done
    case Update(_, _) => x.reply == Done
    case Tally(_, _) => x.reply.Counted?
    case _ => false
  }

  /** The keys the bounded map dropped since they were last written. */
  function Dropped(tr: seq<Seen>): (d: set<Key>) {
    if |tr| == 0 then {}
    else
      var d, x := Dropped(tr[..|tr| - 1]), tr[|tr| - 1];
      if Stored(x) then (d + x.ev.gone) - {x.ev.op.key} else d
  }

  /** What one key has in the store against what it has in the plain map. */
  ghost predicate RefinesAt(s: State, h: Resident, dropped: set<Key>, k: Key) {
    && (k in s.m ==> k in h && h[k] == s.m[k] && k !in dropped)
    && (k in h && k !in s.m ==> k in dropped || Expired(h[k], s.clock))
  }

  ghost predicate Refines(cfg: Config, s: State, h: Resident, dropped: set<Key>) {
    && |s.m| <= cfg.size
    && (forall k: Key :: RefinesAt(s, h, dropped, k))
  }

  lemma {:induction false} StepRefinesAt(cfg: Config, s: State, ev: Event, h: Resident, dropped: set<Key>, k: Key)
    requires RefinesAt(s, h, dropped, k) && Timely(s, ev)
    ensures var x := Seen(ev, ReplyTo(cfg, s, ev));
            RefinesAt(Next(cfg, s, ev), Remember(cfg, h, x),
                      if Stored(x) then (dropped + ev.gone) - {ev.op.key} else dropped, k)
  {
    if !Touches(ev.op, k) {
      OtherKeyKept(cfg, s, ev, k);
    }
  }

  /** Every sequential run, every choice of victims. */
  lemma {:induction false} StoreRefinesLastWrites(cfg: Config, clock: int, evs: seq<Event>)
    requires Run(cfg, State(map[], clock), evs)
    ensures var tr := Trace(cfg, State(map[], clock), evs);
            Refines(cfg, Exec(cfg, State(map[], clock), evs), History(cfg, tr), Dropped(tr))
  {
    if |evs| > 0 {
      var s0, front, last := State(map[], clock), evs[..|evs| - 1], evs[|evs| - 1];
      StoreRefinesLastWrites(cfg, clock, front);
      var tr := Trace(cfg, s0, evs);
      assert tr[..|tr| - 1] == Trace(cfg, s0, front);
      var h, d := History(cfg, Trace(cfg, s0, front)), Dropped(Trace(cfg, s0, front));
      StepFits(cfg, Exec(cfg, s0, front), last);
      forall k: Key ensures RefinesAt(Exec(cfg, s0, evs), History(cfg, tr), Dropped(tr), k) {
        StepRefinesAt(cfg, Exec(cfg, s0, front), last, h, d, k);
      }
    }
  }

  /**
   * After any run, a Get hits exactly when the last write is remembered, was not dropped and has not
   * expired, and then it delivers exactly that last write.
   */
  lemma {:induction false} GetAnswersLastWrite(cfg: Config, clock: int, evs: seq<Event>, k: Key, want: Want,
                                               now: int, gone: set<Key>)
    requires Run(cfg, State(map[], clock), evs)
    requires now >= Exec(cfg, State(map[], clock), evs).clock
    ensures var s0 := State(map[], clock);
            var tr := Trace(cfg, s0, evs);
            var h := History(cfg, tr);
            var live := k in h && k !in Dropped(tr) && !Expired(h[k], now);
            ReplyTo(cfg, Exec(cfg, s0, evs), Event(Get(k, want), now, gone))
            == if live then Deliver(h[k], want) else Failed(CacheMiss)
  {
    StoreRefinesLastWrites(cfg, clock, evs);
    var h := History(cfg, Trace(cfg, State(map[], clock), evs));
    var s := Exec(cfg, State(map[], clock), evs);
    assert RefinesAt(s, h, Dropped(Trace(cfg, State(map[], clock), evs)), k);
    if k in h && Expired(h[k], s.clock) {
      ExpiryIsForGood(h[k], s.clock, now);
    }
  }
}
