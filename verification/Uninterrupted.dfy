/** Operations nobody interrupts: the interleaved model and the sequential store agree on them. */
module Uninterrupted {
  import opened Entries
  import opened StoreSpec
  import opened Interleavings

  /** Time passes, then one step of the operation. */
  function Beat(cfg: Config, s: Sys, id: Id, pause: nat, gone: set<Key>, order: seq<Key>): (s': Sys) {
    Perform(cfg, Perform(cfg, s, Tick(pause)), Move(id, gone, order))
  }

  /** Start to finish: no operation but a sweep takes more than three steps. */
  function StartToEnd(cfg: Config, s: Sys, id: Id, op: Op, gone: set<Key>, d1: nat, d2: nat, d3: nat): (s': Sys) {
    var s0 := Perform(cfg, s, Start(id, op));
    Beat(cfg, Beat(cfg, Beat(cfg, s0, id, d1, gone, []), id, d2, gone, []), id, d3, gone, [])
  }

  ghost predicate SequentialAt(cfg: Config, s: Sys, s': Sys, id: Id, op: Op, now: int, gone: set<Key>) {
    var (m', reply) := Step(cfg, s.m, Event(op, now, gone));
    s'.m == m' && id in s'.ops && s'.ops[id] == Finished(reply)
  }

  lemma {:induction false} SetAlone(cfg: Config, s: Sys, id: Id, op: Op, gone: set<Key>, d1: nat, d2: nat, d3: nat)
    requires id !in s.ops && op.Set?
    ensures SequentialAt(cfg, s, StartToEnd(cfg, s, id, op, gone, d1, d2, d3), id, op, s.clock + d1, gone)
  {
    var s1 := Beat(cfg, Perform(cfg, s, Start(id, op)), id, d1, gone, []);
    assert s1.m == s.m && s1.ops[id] == Stamped(op, s.clock + d1);
    var s2 := Beat(cfg, s1, id, d2, gone, []);
    assert s2.ops[id] == Finished(Done);
  }

  lemma {:induction false} AddAlone(cfg: Config, s: Sys, id: Id, op: Op, gone: set<Key>, d1: nat, d2: nat, d3: nat)
    requires id !in s.ops && op.Add?
    ensures SequentialAt(cfg, s, StartToEnd(cfg, s, id, op, gone, d1, d2, d3), id, op, s.clock + d1 + d2, gone)
  {
    var s1 := Beat(cfg, Perform(cfg, s, Start(id, op)), id, d1, gone, []);
    assert s1.m == s.m && s1.clock == s.clock + d1;
    if op.key in s.m {
      assert s1.ops[id] == Finished(Failed(NotStored));
    } else {
      assert s1.ops[id] == Missed(op);
      var s2 := Beat(cfg, s1, id, d2, gone, []);
      assert s2.m == s.m && s2.ops[id] == Stamped(op, s.clock + d1 + d2);
    }
  }

  lemma {:induction false} ReplaceAlone(cfg: Config, s: Sys, id: Id, op: Op, gone: set<Key>,
                                        d1: nat, d2: nat, d3: nat)
    requires id !in s.ops && op.Replace?
    ensures SequentialAt(cfg, s, StartToEnd(cfg, s, id, op, gone, d1, d2, d3), id, op, s.clock + d1 + d2, gone)
  {
    var s1 := Beat(cfg, Perform(cfg, s, Start(id, op)), id, d1, gone, []);
    assert s1.m == s.m && s1.clock == s.clock + d1;
    assert s1.ops[id] == if op.key in s.m then Holding(op, s.m[op.key]) else Finished(Failed(NotStored));
    var s2 := Beat(cfg, s1, id, d2, gone, []);
    assert s2.m == s.m && (s2.ops[id] == s1.ops[id] || s2.ops[id] == Stamped(op, s.clock + d1 + d2));
  }

  lemma {:induction false} GetAlone(cfg: Config, s: Sys, id: Id, op: Op, gone: set<Key>, d1: nat, d2: nat, d3: nat)
    requires id !in s.ops && op.Get?
    ensures SequentialAt(cfg, s, StartToEnd(cfg, s, id, op, gone, d1, d2, d3), id, op, s.clock + d1 + d2, gone)
  {
    var s1 := Beat(cfg, Perform(cfg, s, Start(id, op)), id, d1, gone, []);
    assert s1.clock == s.clock + d1 && s1.m == s.m;
    var s2 := Beat(cfg, s1, id, d2, gone, []);
    assert s2.m == s.m && (s2.ops[id].Finished? || s2.ops[id] == Condemned(op, s.m[op.key]));
  }

  /** Operations that do not read the clock at all. */
  lemma {:induction false} TimelessAlone(cfg: Config, s: Sys, id: Id, op: Op, gone: set<Key>,
                                         d1: nat, d2: nat, d3: nat)
    requires id !in s.ops && (op.Update? || op.Delete? || op.Tally? || op.Flush?)
    ensures SequentialAt(cfg, s, StartToEnd(cfg, s, id, op, gone, d1, d2, d3), id, op, s.clock + d1 + d2, gone)
  {
    var s1 := Beat(cfg, Perform(cfg, s, Start(id, op)), id, d1, gone, []);
    assert s1.m == (if op.Flush? then map[] else s.m) && (s1.ops[id].Finished? || s1.ops[id].Holding?);
    var s2 := Beat(cfg, s1, id, d2, gone, []);
    assert s2.ops[id].Finished?;
  }

  /**
   * An operation whose steps nobody interrupts, however long they take, is one transition of the sequential
   * store at the one clock reading it took: at its first step for Set, at its second for all others.
   */
  lemma {:induction false} UninterruptedIsSequential(cfg: Config, s: Sys, id: Id, op: Op, gone: set<Key>,
                                                     d1: nat, d2: nat, d3: nat)
    requires id !in s.ops && !op.Sweep?
    ensures SequentialAt(cfg, s, StartToEnd(cfg, s, id, op, gone, d1, d2, d3), id, op,
                         s.clock + d1 + if op.Set? then 0 else d2, gone)
  {
    if op.Set? {
      SetAlone(cfg, s, id, op, gone, d1, d2, d3);
    } else if op.Add? {
      AddAlone(cfg, s, id, op, gone, d1, d2, d3);
    } else if op.Replace? {
      ReplaceAlone(cfg, s, id, op, gone, d1, d2, d3);
    } else if op.Get? {
      GetAlone(cfg, s, id, op, gone, d1, d2, d3);
    } else {
      TimelessAlone(cfg, s, id, op, gone, d1, d2, d3);
    }
  }

  /** Only time passes and operation id moves; `order` is what it lists the keys as. */
  predicate Solo(actions: seq<Action>, id: Id, order: seq<Key>) {
    forall a <- actions :: a.Tick? || a == Move(id, {}, order)
  }

  /** Where a sweep that started over m0 at instant lo stands after these visits. */
  ghost predicate SweepAt(m0: Resident, lo: int, s: Sys, id: Id, order: seq<Key>, visits: seq<Visit>) {
    && id in s.ops && Paced(visits, lo, s.clock) && s.m == StepSweep(m0, visits)
    && match s.ops[id]
       case Begin(op) => op.Sweep? && visits == []
       case Rounds(todo) => KeysOf(visits) + todo == order
       case Inspecting(k, e, todo) => KeysOf(visits) + [k] + todo == order && k in s.m && s.m[k] == e
       case Removing(k, e, todo) =>
         KeysOf(visits) + [k] + todo == order && k in s.m && s.m[k] == e && Expired(e, s.clock)
       case Finished(r) => r == Done && KeysOf(visits) == order
       case _ => false
  }

  /** The steps that end a visit: the key is gone, not expired, or removed. */
  lemma {:induction false} VisitEnds(m0: Resident, lo: int, s: Sys, s': Sys, id: Id, order: seq<Key>,
                                     visits: seq<Visit>, k: Key, todo: seq<Key>)
    requires Paced(visits, lo, s.clock) && lo <= s.clock && s.m == StepSweep(m0, visits)
    requires KeysOf(visits) + [k] + todo == order
    requires s'.clock == s.clock && id in s'.ops && s'.ops[id] == Rounds(todo)
    requires s'.m == StepVisit(s.m, Visit(k, s.clock))
    ensures SweepAt(m0, lo, s', id, order, visits + [Visit(k, s.clock)])
  {
    VisitAppends(m0, visits, Visit(k, s.clock), lo, s.clock);
  }

  lemma {:induction false} SoloMove(cfg: Config, m0: Resident, lo: int, s: Sys, id: Id, order: seq<Key>,
                                    visits: seq<Visit>)
    returns (visits': seq<Visit>)
    requires SweepAt(m0, lo, s, id, order, visits) && lo <= s.clock
    ensures SweepAt(m0, lo, Perform(cfg, s, Move(id, {}, order)), id, order, visits')
  {
    var s' := Perform(cfg, s, Move(id, {}, order));
    visits' := visits;
    match s.ops[id]
    case Begin(op) => assert s' == At(s, id, Rounds(order)) && KeysOf([]) + order == order;
    case Rounds(todo) =>
      if |todo| == 0 {
        assert s' == At(s, id, Finished(Done)) && KeysOf(visits) + todo == KeysOf(visits);
      } else {
        assert KeysOf(visits) + [todo[0]] + todo[1..] == KeysOf(visits) + todo;
        if todo[0] !in s.m {
          VisitEnds(m0, lo, s, s', id, order, visits, todo[0], todo[1..]);
          visits' := visits + [Visit(todo[0], s.clock)];
        }
      }
    case Inspecting(k, e, todo) =>
      if !Expired(e, s.clock) {
        VisitEnds(m0, lo, s, s', id, order, visits, k, todo);
        visits' := visits + [Visit(k, s.clock)];
      }
    case Removing(k, e, todo) =>
      VisitEnds(m0, lo, s, s', id, order, visits, k, todo);
      visits' := visits + [Visit(k, s.clock)];
    case Finished(_) =>
  }

  lemma {:induction false} SoloTick(m0: Resident, lo: int, s: Sys, id: Id, order: seq<Key>, visits: seq<Visit>,
                                    elapsed: nat)
    requires SweepAt(m0, lo, s, id, order, visits)
    ensures SweepAt(m0, lo, s.(clock := s.clock + elapsed), id, order, visits)
  {
  }

  lemma {:induction false} SoloRun(cfg: Config, s: Sys, id: Id, order: seq<Key>, actions: seq<Action>)
    returns (visits: seq<Visit>)
    requires id in s.ops && s.ops[id].Begin? && s.ops[id].op.Sweep? && Solo(actions, id, order)
    ensures var s' := Interleave(cfg, s, actions);
            s.clock <= s'.clock && SweepAt(s.m, s.clock, s', id, order, visits)
  {
    if |actions| == 0 {
      visits := [];
    } else {
      var front, last := actions[..|actions| - 1], actions[|actions| - 1];
      assert last in actions;
      visits := SoloRun(cfg, s, id, order, front);
      var s1 := Interleave(cfg, s, front);
      if last.Tick? {
        SoloTick(s.m, s.clock, s1, id, order, visits, last.elapsed);
      } else {
        MoveKeepsClock(cfg, s1, last);
        visits := SoloMove(cfg, s.m, s.clock, s1, id, order, visits);
      }
    }
  }

  lemma MoveKeepsClock(cfg: Config, s: Sys, a: Action)
    requires a.Move?
    ensures Perform(cfg, s, a).clock == s.clock
  {
    if Enabled(s, a) {
      MoveIsLocal(cfg, s, a);
    }
  }

  /** How many steps a sweep has left at most. */
  function Work(l: Local, order: seq<Key>): (n: nat) {
    match l
    case Begin(_) => 3 * |order| + 2
    case Rounds(todo) => 3 * |todo| + 1
    case Inspecting(_, _, todo) => 3 * |todo| + 3
    case Removing(_, _, todo) => 3 * |todo| + 2
    case _ => 0
  }

  function MovesIn(actions: seq<Action>): (n: nat) {
    if |actions| == 0 then 0
    else MovesIn(actions[..|actions| - 1]) + if actions[|actions| - 1].Move? then 1 else 0
  }

  lemma {:induction false} WorkShrinks(cfg: Config, s: Sys, id: Id, order: seq<Key>)
    requires id in s.ops && s.ops[id].Begin? ==> s.ops[id].op.Sweep?
    requires id in s.ops && Work(s.ops[id], order) > 0
    ensures var s' := Perform(cfg, s, Move(id, {}, order));
            id in s'.ops && Work(s'.ops[id], order) < Work(s.ops[id], order)
  {
  }

  lemma {:induction false} SoloWorks(cfg: Config, s: Sys, id: Id, order: seq<Key>, actions: seq<Action>)
    requires id in s.ops && s.ops[id].Begin? && s.ops[id].op.Sweep? && Solo(actions, id, order)
    ensures var s' := Interleave(cfg, s, actions);
            id in s'.ops && (Work(s'.ops[id], order) == 0
                             || Work(s'.ops[id], order) + MovesIn(actions) <= 3 * |order| + 2)
  {
    if |actions| > 0 {
      var front, last := actions[..|actions| - 1], actions[|actions| - 1];
      assert last in actions;
      SoloWorks(cfg, s, id, order, front);
      var _ := SoloRun(cfg, s, id, order, front);
      var s1 := Interleave(cfg, s, front);
      if last.Move? && Work(s1.ops[id], order) > 0 {
        WorkShrinks(cfg, s1, id, order);
      }
    }
  }

  /**
   * A sweep nobody interrupts, from its start, under every schedule of its steps and the clock: once it has had
   * three steps for each key and two more it has finished, and if it listed each resident key once it was a sweep
   * of the sequential store and keeps the promise of one.
   */
  lemma {:induction false} UninterruptedSweep(cfg: Config, s: Sys, id: Id, order: seq<Key>, actions: seq<Action>)
    returns (visits: seq<Visit>)
    requires id in s.ops && s.ops[id].Begin? && s.ops[id].op.Sweep? && Solo(actions, id, order)
    requires Lists(order, s.m) && MovesIn(actions) >= 3 * |order| + 2
    ensures var s' := Interleave(cfg, s, actions);
            && id in s'.ops && s'.ops[id] == Finished(Done)
            && GoodVisits(s.m, visits, s.clock, s'.clock) && s'.m == StepSweep(s.m, visits)
            && Swept(s.m, s'.m, s.clock, s'.clock)
  {
    visits := SoloRun(cfg, s, id, order, actions);
    SoloWorks(cfg, s, id, order, actions);
    SweepIsExact(s.m, visits, s.clock, Interleave(cfg, s, actions).clock);
  }
}
