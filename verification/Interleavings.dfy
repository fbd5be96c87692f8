/**
 * The store under concurrency.  Every client call and every sweep is a small program whose steps are single
 * calls of the shared LRU or single clock readings; there is no lock over a whole operation, so steps of
 * different operations interleave freely.
 */
module Interleavings {
  import opened GoNumbers
  import opened Counters
  import opened Entries
  import opened StoreSpec

  type Id = nat

  /** Where an operation stands between two of its steps. */
  datatype Local =
    | Begin(op: Op)                       // nothing done yet
    | Missed(op: Op)                      // an Add that found nothing
    | Holding(op: Op, e: Entry)           // its Get of the LRU returned e
    | Stamped(op: Op, now: int)           // the clock is read, the LRU write is next
    | Condemned(op: Op, e: Entry)         // a Get that judged e expired, the removal is next
    | Rounds(todo: seq<Key>)              // a sweep between keys
    | Inspecting(k: Key, e: Entry, todo: seq<Key>)
    | Removing(k: Key, e: Entry, todo: seq<Key>)
    | Finished(reply: Reply)

  /** A write that reached the LRU: the operation and the clock reading it was stamped with. */
  datatype Write = Write(op: Op, now: int)

  datatype Sys = Sys(m: Resident, clock: int, ops: map<Id, Local>, log: map<Id, Write>)

  /** One scheduling choice: start an operation, let time pass, or let one operation take its next step. */
  datatype Action =
    | Start(id: Id, op: Op)
    | Tick(elapsed: nat)
    | Move(id: Id, gone: set<Key>, order: seq<Key>)

  predicate Enabled(s: Sys, a: Action) {
    match a
    case Start(id, _) => id !in s.ops
    case Tick(_) => true
    case Move(id, _, _) => id in s.ops && !s.ops[id].Finished?
  }

  /** The base write of an operation: what its single LRU write stores. */
  function BaseEntry(cfg: Config, w: Write): (e: Entry) {
    match w.op
    case Set(_, g, exp) => Stamp(g, exp, cfg.defaultExp, w.now)
    case Add(_, g, exp) => Stamp(g, exp, cfg.defaultExp, w.now)
    case Replace(_, g, exp) => Stamp(g, exp, cfg.defaultExp, w.now)
    case Update(_, e) => e
    case _ => Entry(Str(""), 0, 0)
  }

  predicate IsBase(op: Op) {
    op.Set? || op.Add? || op.Replace? || op.Update?
  }

  /** An LRU write by operation id, recorded in the log. */
  function Put(s: Sys, id: Id, k: Key, e: Entry, gone: set<Key>, w: Write, r: Reply): (s': Sys) {
    Sys(Admit(s.m, k, e, gone), s.clock, s.ops[id := Finished(r)], s.log[id := w])
  }

  function At(s: Sys, id: Id, l: Local): (s': Sys) {
    s.(ops := s.ops[id := l])
  }

  /** The first step of an operation. */
  function MoveBegin(s: Sys, id: Id, op: Op, order: seq<Key>): (s': Sys) {
    match op
    case Set(_, _, _) => At(s, id, Stamped(op, s.clock))
    case Add(k, _, _) => At(s, id, if k in s.m then Finished(Failed(NotStored)) else Missed(op))
    case Replace(k, _, _) => At(s, id, if k in s.m then Holding(op, s.m[k]) else Finished(Failed(NotStored)))
    case Update(k, _) => At(s, id, if k in s.m then Holding(op, s.m[k]) else Finished(Failed(NotStored)))
    case Get(k, _) => At(s, id, if k in s.m then Holding(op, s.m[k]) else Finished(Failed(CacheMiss)))
    case Delete(k) => At(s, id, if k in s.m then Holding(op, s.m[k]) else Finished(Failed(CacheMiss)))
    case Tally(k, _) => At(s, id, if k in s.m then Holding(op, s.m[k]) else Finished(Failed(CacheMiss)))
    case Flush => At(s, id, Finished(Done)).(m := map[])
    case Sweep(_) => At(s, id, Rounds(order))
  }

  /** The step after a successful Get of the LRU. */
  function MoveHolding(s: Sys, id: Id, op: Op, e: Entry, gone: set<Key>): (s': Sys) {
    match op
    case Get(_, want) => At(s, id, if Expired(e, s.clock) then Condemned(op, e) else Finished(Deliver(e, want)))
    case Update(k, e') => Put(s, id, k, e', gone, Write(op, s.clock), Done)
    case Delete(k) => At(s, id, Finished(Done)).(m := s.m - {k})
    case Tally(k, c) =>
      if e.data.Int? then
        var v := Count(e.data.i, c);
        Put(s, id, k, e.(data := Int(v)), gone, Write(op, s.clock), Counted(AsUint64(v)))
      else At(s, id, Finished(Failed(NotSupported)))
    case _ => At(s, id, Stamped(op, s.clock))
  }

  /** The effect of an action; one that is not enabled does nothing, so every sequence of actions is a run. */
  function Perform(cfg: Config, s: Sys, a: Action): (s': Sys) {
    if !Enabled(s, a) then s
    else
      match a
      case Start(id, op) => At(s, id, Begin(op))
      case Tick(elapsed) => s.(clock := s.clock + elapsed)
      case Move(id, gone, order) => Advance(cfg, s, id, gone, order)
  }

  function Advance(cfg: Config, s: Sys, id: Id, gone: set<Key>, order: seq<Key>): (s': Sys)
    requires id in s.ops
  {
    match s.ops[id]
    case Begin(op) => MoveBegin(s, id, op, order)
    case Missed(op) => At(s, id, Stamped(op, s.clock))
    case Holding(op, e) => MoveHolding(s, id, op, e, gone)
    case Stamped(op, now) =>
      if IsBase(op) then Put(s, id, op.key, BaseEntry(cfg, Write(op, now)), gone, Write(op, now), Done) else s
    case Condemned(op, _) =>
      if op.Get? then At(s, id, Finished(Failed(CacheMiss))).(m := s.m - {op.key}) else s
    case Rounds(todo) =>
      if |todo| == 0 then At(s, id, Finished(Done))
      else if todo[0] in s.m then At(s, id, Inspecting(todo[0], s.m[todo[0]], todo[1..]))
      else At(s, id, Rounds(todo[1..]))
    case Inspecting(k, e, todo) => At(s, id, if Expired(e, s.clock) then Removing(k, e, todo) else Rounds(todo))
    case Removing(k, _, todo) => At(s, id, Rounds(todo)).(m := s.m - {k})
    case Finished(_) => s
  }

  function Initial(clock: int): (s: Sys) {
    Sys(map[], clock, map[], map[])
  }

  function Interleave(cfg: Config, s: Sys, actions: seq<Action>): (s': Sys) {
    if |actions| == 0 then s
    else Perform(cfg, Interleave(cfg, s, actions[..|actions| - 1]), actions[|actions| - 1])
  }

  // ----- Where a counter's value comes from -----

  function Deltas(log: map<Id, Write>, ids: seq<Id>): (cs: seq<CounterOp>)
    requires forall i <- ids :: i in log && log[i].op.Tally?
  {
    seq(|ids|, i requires 0 <= i < |ids| => log[ids[i]].op.delta)
  }

  /**
   * Entry e is the base write of operation b to k, folded through the distinct counter operations ids; what is no
   * integer cannot be folded and is the base write itself.
   */
  ghost predicate ExplainedBy(cfg: Config, log: map<Id, Write>, k: Key, e: Entry, b: Id, ids: seq<Id>) {
    && b in log && IsBase(log[b].op) && log[b].op.key == k
    && (forall i <- ids :: i in log && log[i].op.Tally? && log[i].op.key == k)
    && (forall i, j :: 0 <= i < j < |ids| ==> ids[i] != ids[j])
    && var base := BaseEntry(cfg, log[b]);
    if base.data.Int? then e == base.(data := Int(Fold(base.data.i, Deltas(log, ids)))) else e == base && ids == []
  }

  ghost predicate Explained(cfg: Config, log: map<Id, Write>, k: Key, e: Entry) {
    exists b, ids :: ExplainedBy(cfg, log, k, e, b, ids)
  }

  /** What every step keeps: resident and held entries are explained, and only finished operations wrote. */
  ghost predicate Inv(cfg: Config, s: Sys) {
    && (forall k :: k in s.m ==> Explained(cfg, s.log, k, s.m[k]))
    && (forall id :: id in s.ops && s.ops[id].Holding? ==> HeldOk(cfg, s.log, s.ops[id]))
    && (forall id :: id in s.log ==> id in s.ops && s.ops[id].Finished?)
  }

  ghost predicate HeldOk(cfg: Config, log: map<Id, Write>, l: Local)
    requires l.Holding?
  {
    !l.op.Flush? && !l.op.Sweep? && Explained(cfg, log, l.op.key, l.e)
  }

  /** The log only grows, so explanations never go stale. */
  lemma StillExplained(cfg: Config, log: map<Id, Write>, id: Id, w: Write, k: Key, e: Entry)
    requires id !in log && Explained(cfg, log, k, e)
    ensures Explained(cfg, log[id := w], k, e)
  {
    var b, ids :| ExplainedBy(cfg, log, k, e, b, ids);
    assert Deltas(log, ids) == Deltas(log[id := w], ids);
    assert ExplainedBy(cfg, log[id := w], k, e, b, ids);
  }

  lemma BaseExplained(cfg: Config, log: map<Id, Write>, id: Id, w: Write)
    requires IsBase(w.op)
    ensures Explained(cfg, log[id := w], w.op.key, BaseEntry(cfg, w))
  {
    assert Deltas(log[id := w], []) == [];
    assert ExplainedBy(cfg, log[id := w], w.op.key, BaseEntry(cfg, w), id, []);
  }

  /** A counter operation extends the explanation of the entry it held, with its own id, used for the first time. */
  lemma TallyExplained(cfg: Config, log: map<Id, Write>, id: Id, w: Write, e: Entry)
    requires id !in log && w.op.Tally? && e.data.Int? && Explained(cfg, log, w.op.key, e)
    ensures Explained(cfg, log[id := w], w.op.key, e.(data := Int(Count(e.data.i, w.op.delta))))
  {
    var b, ids :| ExplainedBy(cfg, log, w.op.key, e, b, ids);
    var log', ids' := log[id := w], ids + [id];
    var cs' := Deltas(log', ids');
    assert cs'[..|cs'| - 1] == Deltas(log, ids);
    assert ExplainedBy(cfg, log', w.op.key, e.(data := Int(Count(e.data.i, w.op.delta))), b, ids');
  }

  lemma PutKeepsInv(cfg: Config, s: Sys, id: Id, k: Key, e: Entry, gone: set<Key>, w: Write, r: Reply)
    requires Inv(cfg, s) && id in s.ops && !s.ops[id].Finished?
    requires Explained(cfg, s.log[id := w], k, e)
    ensures Inv(cfg, Put(s, id, k, e, gone, w, r))
  {
    var s' := Put(s, id, k, e, gone, w, r);
    forall k' | k' in s'.m ensures Explained(cfg, s'.log, k', s'.m[k']) {
      if k' != k {
        StillExplained(cfg, s.log, id, w, k', s.m[k']);
      }
    }
    forall id' | id' in s'.ops && s'.ops[id'].Holding? ensures HeldOk(cfg, s'.log, s'.ops[id']) {
      StillExplained(cfg, s.log, id, w, s.ops[id'].op.key, s.ops[id'].e);
    }
  }

  lemma HoldingKeepsInv(cfg: Config, s: Sys, id: Id, gone: set<Key>)
    requires Inv(cfg, s) && id in s.ops && s.ops[id].Holding?
    ensures Inv(cfg, MoveHolding(s, id, s.ops[id].op, s.ops[id].e, gone))
  {
    var Holding(op, e) := s.ops[id];
    assert HeldOk(cfg, s.log, s.ops[id]);
    var w := Write(op, s.clock);
    if op.Update? {
      BaseExplained(cfg, s.log, id, w);
      PutKeepsInv(cfg, s, id, op.key, op.entry, gone, w, Done);
    } else if op.Tally? && e.data.Int? {
      TallyExplained(cfg, s.log, id, w, e);
      var v := Count(e.data.i, op.delta);
      PutKeepsInv(cfg, s, id, op.key, e.(data := Int(v)), gone, w, Counted(AsUint64(v)));
    } else {
      HoldingIsLocal(s, id, gone);
      QuietKeepsInv(cfg, s, MoveHolding(s, id, op, e, gone), id);
    }
  }

  /** Steps that write nothing: one operation moves on, entries may disappear. */
  lemma {:induction false} QuietKeepsInv(cfg: Config, s: Sys, s': Sys, id: Id)
    requires Inv(cfg, s) && id in s.ops && !s.ops[id].Finished?
    requires s'.log == s.log && id in s'.ops && s'.ops == s.ops[id := s'.ops[id]]
    requires forall k :: k in s'.m ==> k in s.m && s'.m[k] == s.m[k]
    requires s'.ops[id].Holding? ==> HeldOk(cfg, s.log, s'.ops[id])
    ensures Inv(cfg, s')
  {
    forall k | k in s'.m ensures Explained(cfg, s'.log, k, s'.m[k]) {
      assert Explained(cfg, s.log, k, s.m[k]);
    }
    forall x | x in s'.ops && s'.ops[x].Holding? ensures HeldOk(cfg, s'.log, s'.ops[x]) {
      assert x != id ==> HeldOk(cfg, s.log, s.ops[x]);
    }
  }

  lemma {:induction false} BeginKeepsInv(cfg: Config, s: Sys, id: Id, order: seq<Key>)
    requires Inv(cfg, s) && id in s.ops && s.ops[id].Begin?
    ensures Inv(cfg, MoveBegin(s, id, s.ops[id].op, order))
  {
    var s', op := MoveBegin(s, id, s.ops[id].op, order), s.ops[id].op;
    BeginIsLocal(s, id, order);
    if s'.ops[id].Holding? {
      assert Explained(cfg, s.log, op.key, s.m[op.key]);
    }
    QuietKeepsInv(cfg, s, s', id);
  }

  lemma {:induction false} RestKeepsInv(cfg: Config, s: Sys, a: Action)
    requires Inv(cfg, s) && a.Move? && Enabled(s, a)
    requires !s.ops[a.id].Begin? && !s.ops[a.id].Holding? && !s.ops[a.id].Stamped?
    ensures Inv(cfg, Perform(cfg, s, a))
  {
    RestIsLocal(cfg, s, a.id, a.gone, a.order);
    QuietKeepsInv(cfg, s, Perform(cfg, s, a), a.id);
  }

  /** Starting an operation and letting time pass. */
  lemma {:induction false} IdleKeepsInv(cfg: Config, s: Sys, a: Action)
    requires Inv(cfg, s) && (a.Start? || a.Tick? || !Enabled(s, a))
    ensures Inv(cfg, Perform(cfg, s, a))
  {
    var s' := Perform(cfg, s, a);
    forall k | k in s'.m ensures Explained(cfg, s'.log, k, s'.m[k]) {
      assert Explained(cfg, s.log, k, s.m[k]);
    }
    forall x | x in s'.ops && s'.ops[x].Holding? ensures HeldOk(cfg, s'.log, s'.ops[x]) {
      assert HeldOk(cfg, s.log, s.ops[x]);
    }
  }

  lemma {:induction false} StepKeepsInv(cfg: Config, s: Sys, a: Action)
    requires Inv(cfg, s)
    ensures Inv(cfg, Perform(cfg, s, a))
  {
    if a.Move? && Enabled(s, a) {
      match s.ops[a.id]
      case Begin(_) => BeginKeepsInv(cfg, s, a.id, a.order);
      case Holding(_, _) => HoldingKeepsInv(cfg, s, a.id, a.gone);
      case Stamped(op, now) =>
        if IsBase(op) {
          BaseExplained(cfg, s.log, a.id, Write(op, now));
          PutKeepsInv(cfg, s, a.id, op.key, BaseEntry(cfg, Write(op, now)), a.gone, Write(op, now), Done);
        }
      case _ => RestKeepsInv(cfg, s, a);
    } else {
      IdleKeepsInv(cfg, s, a);
    }
  }

  lemma {:induction false} ReachableInv(cfg: Config, clock: int, actions: seq<Action>)
    ensures Inv(cfg, Interleave(cfg, Initial(clock), actions))
  {
    if |actions| > 0 {
      var front := actions[..|actions| - 1];
      ReachableInv(cfg, clock, front);
      StepKeepsInv(cfg, Interleave(cfg, Initial(clock), front), actions[|actions| - 1]);
    }
  }

  /**
   * In every interleaving, each entry ever resident is some base write to its key; if it is an integer counter, it
   * is that write folded through distinct counter operations on the key, with exactly that write's stamps.
   */
  lemma CounterProvenance(cfg: Config, clock: int, actions: seq<Action>, k: Key)
    ensures var s := Interleave(cfg, Initial(clock), actions);
            k in s.m ==> exists b, ids :: ExplainedBy(cfg, s.log, k, s.m[k], b, ids)
  {
    ReachableInv(cfg, clock, actions);
    var s := Interleave(cfg, Initial(clock), actions);
    if k in s.m {
      assert Explained(cfg, s.log, k, s.m[k]);
    }
  }

  /**
   * In every interleaving, what a Get delivers is such an entry of its key, unexpired at the Get's own reading; it
   * delivers nothing if the entry it read is expired by then.
   */
  lemma {:induction false} GetsAreExplained(cfg: Config, clock: int, actions: seq<Action>, id: Id,
                                            gone: set<Key>, order: seq<Key>)
    requires var s := Interleave(cfg, Initial(clock), actions);
             id in s.ops && s.ops[id].Holding? && s.ops[id].op.Get?
    ensures var s := Interleave(cfg, Initial(clock), actions);
            var Holding(Get(k, want), e) := s.ops[id];
            var s' := Perform(cfg, s, Move(id, gone, order));
            && id in s'.ops
            && (s'.ops[id].Finished? <==> !Expired(e, s.clock))
            && (s'.ops[id].Finished? ==>
                  s'.ops[id].reply == Deliver(e, want) && exists b, ids :: ExplainedBy(cfg, s.log, k, e, b, ids))
  {
    ReachableInv(cfg, clock, actions);
    var s := Interleave(cfg, Initial(clock), actions);
    assert HeldOk(cfg, s.log, s.ops[id]);
  }

  // ----- What one step does -----

  /** A judgement of expiry was right at this clock. */
  predicate JudgedAt(l: Local, clock: int) {
    l.Condemned? || l.Removing? ==> Expired(l.e, clock)
  }

  /** Only operation id has moved, and it judged, if at all, by the clock of now. */
  predicate OnlyMoved(s: Sys, s': Sys, id: Id)
    requires id in s.ops
  {
    && s'.clock == s.clock && id in s'.ops && s'.ops == s.ops[id := s'.ops[id]]
    && (s'.ops[id] != s.ops[id] ==> JudgedAt(s'.ops[id], s.clock))
  }

  lemma {:induction false} BeginIsLocal(s: Sys, id: Id, order: seq<Key>)
    requires id in s.ops && s.ops[id].Begin?
    ensures OnlyMoved(s, MoveBegin(s, id, s.ops[id].op, order), id)
  {
  }

  lemma {:induction false} HoldingIsLocal(s: Sys, id: Id, gone: set<Key>)
    requires id in s.ops && s.ops[id].Holding?
    ensures OnlyMoved(s, MoveHolding(s, id, s.ops[id].op, s.ops[id].e, gone), id)
  {
  }

  lemma {:induction false} RestIsLocal(cfg: Config, s: Sys, id: Id, gone: set<Key>, order: seq<Key>)
    requires id in s.ops && !s.ops[id].Begin? && !s.ops[id].Holding?
    ensures OnlyMoved(s, Advance(cfg, s, id, gone, order), id)
  {
  }

  /** A step of one operation changes no other and judges, if at all, by the clock of now. */
  lemma {:induction false} MoveIsLocal(cfg: Config, s: Sys, a: Action)
    requires a.Move? && Enabled(s, a)
    ensures OnlyMoved(s, Perform(cfg, s, a), a.id)
  {
    if s.ops[a.id].Begin? {
      BeginIsLocal(s, a.id, a.order);
    } else if s.ops[a.id].Holding? {
      HoldingIsLocal(s, a.id, a.gone);
    } else {
      RestIsLocal(cfg, s, a.id, a.gone, a.order);
    }
  }

  /** The next step of this operation writes a counter back under k. */
  predicate Lands(s: Sys, a: Action, k: Key) {
    && a.Move? && a.id in s.ops && s.ops[a.id].Holding?
    && s.ops[a.id].op.Tally? && s.ops[a.id].op.key == k && s.ops[a.id].e.data.Int?
  }

  /** The next step of this operation writes k, in whatever way. */
  predicate Writes(s: Sys, a: Action, k: Key) {
    || Lands(s, a, k)
    || (a.Move? && a.id in s.ops && s.ops[a.id].Holding? && s.ops[a.id].op.Update? && s.ops[a.id].op.key == k)
    || (a.Move? && a.id in s.ops && s.ops[a.id].Stamped? && IsBase(s.ops[a.id].op) && s.ops[a.id].op.key == k)
  }

  /** The entry it writes. */
  function Written(cfg: Config, s: Sys, a: Action, k: Key): (e: Entry)
    requires Writes(s, a, k)
  {
    match s.ops[a.id]
    case Holding(op, e) => if op.Update? then op.entry else e.(data := Int(Count(e.data.i, op.delta)))
    case Stamped(op, now) => BaseEntry(cfg, Write(op, now))
  }

  /** A step that writes k leaves what it writes there; any other leaves what was there, or nothing. */
  lemma {:induction false} KeyStep(cfg: Config, s: Sys, a: Action, k: Key)
    ensures var m' := Perform(cfg, s, a).m;
            if Writes(s, a, k) then k in m' && m'[k] == Written(cfg, s, a, k)
            else k in m' ==> k in s.m && m'[k] == s.m[k]
  {
    if a.Move? && Enabled(s, a) {
      if s.ops[a.id].Begin? {
        assert MoveBegin(s, a.id, s.ops[a.id].op, a.order).m == s.m || s.ops[a.id].op.Flush?;
      } else if s.ops[a.id].Holding? {
        HoldingWrites(cfg, s, a, k);
      }
    }
  }

  lemma {:induction false} HoldingWrites(cfg: Config, s: Sys, a: Action, k: Key)
    requires a.Move? && a.id in s.ops && s.ops[a.id].Holding?
    ensures var m' := MoveHolding(s, a.id, s.ops[a.id].op, s.ops[a.id].e, a.gone).m;
            if Writes(s, a, k) then k in m' && m'[k] == Written(cfg, s, a, k)
            else k in m' ==> k in s.m && m'[k] == s.m[k]
  {
  }

  lemma {:induction false} ClockAdvances(cfg: Config, s: Sys, actions: seq<Action>)
    ensures s.clock <= Interleave(cfg, s, actions).clock
  {
    if |actions| > 0 {
      ClockAdvances(cfg, s, actions[..|actions| - 1]);
      var s1, last := Interleave(cfg, s, actions[..|actions| - 1]), actions[|actions| - 1];
      if last.Move? && Enabled(s1, last) {
        MoveIsLocal(cfg, s1, last);
      }
    }
  }

  lemma InterleaveOneMore(cfg: Config, s: Sys, actions: seq<Action>, a: Action)
    ensures Interleave(cfg, s, actions + [a]) == Perform(cfg, Interleave(cfg, s, actions), a)
  {
    assert (actions + [a])[..|actions|] == actions;
  }

  lemma {:induction false} InterleaveAppends(cfg: Config, s: Sys, first: seq<Action>, more: seq<Action>)
    ensures Interleave(cfg, s, first + more) == Interleave(cfg, Interleave(cfg, s, first), more)
  {
    if |more| == 0 {
      assert first + more == first;
    } else {
      var front, last := more[..|more| - 1], more[|more| - 1];
      assert first + more == (first + front) + [last] && more == front + [last];
      InterleaveOneMore(cfg, s, first + front, last);
      InterleaveAppends(cfg, s, first, front);
      InterleaveOneMore(cfg, Interleave(cfg, s, first), front, last);
    }
  }
}
