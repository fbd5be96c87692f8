/** Counter operations that race: when they are lost, when none is, and how callers can see to it. */
module CounterRaces {
  import opened GoNumbers
  import opened Counters
  import opened Entries
  import opened StoreSpec
  import opened Interleavings

  /** Two Increments by one whose reads both come before their writes. */
  function Overlap(cfg: Config, s: Sys, k: Key, x: Id, y: Id): (s': Sys) {
    var inc := Tally(k, Inc(1));
    var s1 := Perform(cfg, Perform(cfg, s, Start(x, inc)), Start(y, inc));
    var s2 := Perform(cfg, Perform(cfg, s1, Move(x, {}, [])), Move(y, {}, []));
    Perform(cfg, Perform(cfg, s2, Move(x, {}, [])), Move(y, {}, []))
  }

  /** Both are answered 1 and the counter stays at 1: an operation that completed can be lost. */
  lemma {:induction false} IncrementsCanBeLost(cfg: Config, s: Sys, k: Key, x: Id, y: Id)
    requires k in s.m && s.m[k].data == Int(0) && x != y && x !in s.ops && y !in s.ops
    ensures var s' := Overlap(cfg, s, k, x, y);
            && x in s'.ops && y in s'.ops && s'.ops[x] == s'.ops[y] == Finished(Counted(1))
            && k in s'.m && s'.m[k].data == Int(1)
  {
    var inc, e := Tally(k, Inc(1)), s.m[k];
    var s1 := Perform(cfg, Perform(cfg, s, Start(x, inc)), Start(y, inc));
    assert s1.m == s.m && s1.ops[x] == s1.ops[y] == Begin(inc);
    var s2 := Perform(cfg, Perform(cfg, s1, Move(x, {}, [])), Move(y, {}, []));
    assert s2.m == s.m && s2.ops[x] == s2.ops[y] == Holding(inc, e);
    var s3 := Perform(cfg, s2, Move(x, {}, []));
    assert s3.m[k] == e.(data := Int(1)) && s3.ops[x] == Finished(Counted(1)) && s3.ops[y] == Holding(inc, e);
  }

  // ----- Exactly when one operation counts from what is resident -----

  /** A held Increment lands on top of what is resident if and only if it read the value that is resident now. */
  lemma {:induction false} HeldIncrementLandsIff(cfg: Config, s: Sys, a: Action, k: Key)
    requires Lands(s, a, k) && s.ops[a.id].op.delta.Inc? && k in s.m && s.m[k].data.Int?
    ensures var n, s' := s.ops[a.id].op.delta.n, Perform(cfg, s, a);
            k in s'.m && (s'.m[k].data == Int(Wrap64(s.m[k].data.i + n)) <==> s.ops[a.id].e.data.i == s.m[k].data.i)
  {
    KeyStep(cfg, s, a, k);
    IncrementFromIff(s.ops[a.id].e.data.i, s.m[k].data.i, s.ops[a.id].op.delta.n);
  }

  /** A held Decrement does so if and only if it read that value, or both values are cut off at zero. */
  lemma {:induction false} HeldDecrementLandsIff(cfg: Config, s: Sys, a: Action, k: Key)
    requires Lands(s, a, k) && s.ops[a.id].op.delta.Dec? && k in s.m && s.m[k].data.Int?
    ensures var c, read, current, s' := s.ops[a.id].op.delta, s.ops[a.id].e.data.i, s.m[k].data.i, Perform(cfg, s, a);
            && k in s'.m
            && (s'.m[k].data == Int(Count(current, c))
                <==> read == current || (read <= Wrap64(c.n) && current <= Wrap64(c.n)))
  {
    KeyStep(cfg, s, a, k);
    DecrementFromIff(s.ops[a.id].e.data.i, s.m[k].data.i, s.ops[a.id].op.delta.n);
  }

  // ----- Runs in which nothing is lost -----

  /** A counter operation on k writes over the very entry it read; any other step leaves k's entry as it is. */
  predicate Clean(cfg: Config, s: Sys, a: Action, k: Key) {
    && k in s.m
    && if Lands(s, a, k) then s.m[k] == s.ops[a.id].e
       else k in Perform(cfg, s, a).m && Perform(cfg, s, a).m[k] == s.m[k]
  }

  predicate AllClean(cfg: Config, s: Sys, actions: seq<Action>, k: Key) {
    |actions| == 0 ||
    (var front := actions[..|actions| - 1];
     AllClean(cfg, s, front, k) && Clean(cfg, Interleave(cfg, s, front), actions[|actions| - 1], k))
  }

  /** The counter operations that landed on k, in the order they landed. */
  function Landed(cfg: Config, s: Sys, actions: seq<Action>, k: Key): (cs: seq<CounterOp>) {
    if |actions| == 0 then []
    else
      var front, last := actions[..|actions| - 1], actions[|actions| - 1];
      var s1 := Interleave(cfg, s, front);
      Landed(cfg, s, front, k) + if Lands(s1, last, k) then [s1.ops[last.id].op.delta] else []
  }

  /**
   * If every counter operation on k writes over the entry it read and nothing else changes that entry, then no
   * operation is lost: the counter is its starting value folded through all that landed, stamps unchanged.
   */
  lemma {:induction false} CleanCountersAddUp(cfg: Config, s: Sys, actions: seq<Action>, k: Key)
    requires k in s.m && s.m[k].data.Int? && AllClean(cfg, s, actions, k)
    ensures var s' := Interleave(cfg, s, actions);
            k in s'.m && s'.m[k] == s.m[k].(data := Int(Fold(s.m[k].data.i, Landed(cfg, s, actions, k))))
  {
    if |actions| > 0 {
      var front, last := actions[..|actions| - 1], actions[|actions| - 1];
      CleanCountersAddUp(cfg, s, front, k);
      var s1, cs := Interleave(cfg, s, front), Landed(cfg, s, actions, k);
      if Lands(s1, last, k) {
        assert cs[..|cs| - 1] == Landed(cfg, s, front, k);
        LandingCounts(cfg, s1, last, k);
      } else {
        assert cs == Landed(cfg, s, front, k);
      }
    }
  }

  lemma LandingCounts(cfg: Config, s: Sys, a: Action, k: Key)
    requires Lands(s, a, k) && Clean(cfg, s, a, k)
    ensures var s' := Perform(cfg, s, a);
            k in s'.m && s'.m[k] == s.m[k].(data := Int(Count(s.m[k].data.i, s.ops[a.id].op.delta)))
  {
  }

  // ----- A discipline callers can keep -----

  /** A counter operation on k that has not finished. */
  predicate Pending(l: Local, k: Key) {
    (l.Begin? || l.Holding?) && l.op.Tally? && l.op.key == k
  }

  /** Counter operations and Gets of k, sweeps, and anything on other keys. */
  predicate Allowed(op: Op, k: Key) {
    !op.Flush? && (op.Sweep? || op.key != k || op.Tally? || op.Get?)
  }

  /**
   * What callers have to see to: at most one counter operation on k at a time, no other writes or deletions of k,
   * no Flush, and k is no victim.  Gets of k, sweeps and operations on other keys run freely.
   */
  ghost predicate Disciplined(s: Sys, a: Action, k: Key) {
    match a
    case Start(_, op) =>
      Allowed(op, k) && (Pending(Begin(op), k) ==> forall id :: id in s.ops ==> !Pending(s.ops[id], k))
    case Tick(_) => true
    case Move(_, gone, _) => k !in gone
  }

  ghost predicate AllDisciplined(cfg: Config, s: Sys, actions: seq<Action>, k: Key) {
    |actions| == 0 ||
    (var front := actions[..|actions| - 1];
     AllDisciplined(cfg, s, front, k) && Disciplined(Interleave(cfg, s, front), actions[|actions| - 1], k))
  }

  /** A counter operation holds the resident entry; a Get or a sweep holds one that expires when it does. */
  predicate InStep(l: Local, k: Key, e: Entry) {
    match l
    case Begin(op) => Allowed(op, k)
    case Missed(op) => !op.Flush? && !op.Sweep? && op.key != k
    case Stamped(op, _) => !op.Flush? && !op.Sweep? && op.key != k
    case Condemned(op, _) => !op.Flush? && !op.Sweep? && op.key != k
    case Holding(op, h) =>
      !op.Flush? && !op.Sweep? &&
      (op.key != k || (op.Tally? && h == e) || (op.Get? && h.expiresAt == e.expiresAt))
    case Rounds(_) => true
    case Inspecting(k', h, _) => k' != k || h.expiresAt == e.expiresAt
    case Removing(k', _, _) => k' != k
    case Finished(_) => true
  }

  /** In particular, k holds a counter and every operation has finished. */
  ghost predicate OneByOne(s: Sys, k: Key) {
    && k in s.m && s.m[k].data.Int?
    && (forall id :: id in s.ops ==> InStep(s.ops[id], k, s.m[k]))
    && (forall x, y :: x in s.ops && y in s.ops && Pending(s.ops[x], k) && Pending(s.ops[y], k) ==> x == y)
  }

  /** One step of one operation, seen from k. */
  ghost predicate StepOk(cfg: Config, s: Sys, s': Sys, a: Action, k: Key)
    requires a.Move? && a.id in s.ops && k in s.m
  {
    && Clean(cfg, s, a, k) && k in s'.m && a.id in s'.ops
    && s'.m[k].data.Int? && s'.m[k].expiresAt == s.m[k].expiresAt
    && InStep(s'.ops[a.id], k, s'.m[k]) && (Pending(s'.ops[a.id], k) ==> Pending(s.ops[a.id], k))
    && (s'.m[k] != s.m[k] ==> Pending(s.ops[a.id], k))
  }

  lemma {:induction false} BeginStepOk(cfg: Config, s: Sys, a: Action, k: Key)
    requires OneByOne(s, k) && a.Move? && Enabled(s, a) && k !in a.gone && s.ops[a.id].Begin?
    ensures StepOk(cfg, s, Perform(cfg, s, a), a, k)
  {
    assert InStep(s.ops[a.id], k, s.m[k]);
  }

  lemma {:induction false} HoldingStepOk(cfg: Config, s: Sys, a: Action, k: Key)
    requires OneByOne(s, k) && a.Move? && Enabled(s, a) && k !in a.gone && s.ops[a.id].Holding?
    requires !Expired(s.m[k], s.clock)
    ensures StepOk(cfg, s, Perform(cfg, s, a), a, k)
  {
    assert InStep(s.ops[a.id], k, s.m[k]);
  }

  lemma {:induction false} OtherStepOk(cfg: Config, s: Sys, a: Action, k: Key)
    requires OneByOne(s, k) && a.Move? && Enabled(s, a) && k !in a.gone
    requires !s.ops[a.id].Begin? && !s.ops[a.id].Holding? && !Expired(s.m[k], s.clock)
    ensures StepOk(cfg, s, Perform(cfg, s, a), a, k)
  {
    assert InStep(s.ops[a.id], k, s.m[k]);
  }

  lemma {:induction false} MoveInStep(cfg: Config, s: Sys, a: Action, k: Key)
    requires OneByOne(s, k) && a.Move? && Enabled(s, a) && k !in a.gone && !Expired(s.m[k], s.clock)
    ensures StepOk(cfg, s, Perform(cfg, s, a), a, k)
    ensures OneByOne(Perform(cfg, s, a), k)
  {
    if s.ops[a.id].Begin? {
      BeginStepOk(cfg, s, a, k);
    } else if s.ops[a.id].Holding? {
      HoldingStepOk(cfg, s, a, k);
    } else {
      OtherStepOk(cfg, s, a, k);
    }
    MoveIsLocal(cfg, s, a);
    var s' := Perform(cfg, s, a);
    forall id | id in s'.ops ensures InStep(s'.ops[id], k, s'.m[k]) {
      assert InStep(s.ops[id], k, s.m[k]);
    }
  }

  lemma {:induction false} DisciplinedStep(cfg: Config, s: Sys, a: Action, k: Key)
    requires OneByOne(s, k) && Disciplined(s, a, k) && !Expired(s.m[k], s.clock)
    ensures OneByOne(Perform(cfg, s, a), k) && Clean(cfg, s, a, k)
    ensures Perform(cfg, s, a).m[k].expiresAt == s.m[k].expiresAt
  {
    if a.Move? && Enabled(s, a) {
      MoveInStep(cfg, s, a, k);
    } else {
      var s' := Perform(cfg, s, a);
      forall id | id in s'.ops ensures InStep(s'.ops[id], k, s'.m[k]) {
        assert id in s.ops ==> InStep(s.ops[id], k, s.m[k]);
      }
    }
  }

  lemma {:induction false} DisciplineIsClean(cfg: Config, s: Sys, actions: seq<Action>, k: Key)
    requires OneByOne(s, k) && AllDisciplined(cfg, s, actions, k)
    requires !Expired(s.m[k], Interleave(cfg, s, actions).clock)
    ensures AllClean(cfg, s, actions, k) && OneByOne(Interleave(cfg, s, actions), k)
    ensures Interleave(cfg, s, actions).m[k].expiresAt == s.m[k].expiresAt
  {
    if |actions| > 0 {
      var front, last := actions[..|actions| - 1], actions[|actions| - 1];
      var s1 := Interleave(cfg, s, front);
      ClockAdvances(cfg, s1, [last]);
      assert [last][..0] == [] && Interleave(cfg, s1, []) == s1;
      DisciplineIsClean(cfg, s, front, k);
      DisciplinedStep(cfg, s1, last, k);
    }
  }

  /**
   * Callers that keep the discipline lose no counter operation on k, whatever Gets, sweeps and operations on other
   * keys do in between, for as long as the counter is not expired.
   */
  lemma {:induction false} DisciplineLosesNothing(cfg: Config, s: Sys, actions: seq<Action>, k: Key)
    requires OneByOne(s, k) && AllDisciplined(cfg, s, actions, k)
    requires !Expired(s.m[k], Interleave(cfg, s, actions).clock)
    ensures var s' := Interleave(cfg, s, actions);
            k in s'.m && s'.m[k] == s.m[k].(data := Int(Fold(s.m[k].data.i, Landed(cfg, s, actions, k))))
  {
    DisciplineIsClean(cfg, s, actions, k);
    CleanCountersAddUp(cfg, s, actions, k);
  }

  // ----- Increments only: exactly when none is lost -----

  /** Only Increments by more than 0 and less than 2^63 change k's entry. */
  predicate IncrementsOnly(cfg: Config, s: Sys, a: Action, k: Key) {
    && k in s.m && s.m[k].data.Int?
    && if Lands(s, a, k) then s.ops[a.id].op.delta.Inc? && 0 < s.ops[a.id].op.delta.n < TWO_63
       else k in Perform(cfg, s, a).m && Perform(cfg, s, a).m[k] == s.m[k]
  }

  predicate AllIncrements(cfg: Config, s: Sys, actions: seq<Action>, k: Key) {
    |actions| == 0 ||
    (var front := actions[..|actions| - 1];
     AllIncrements(cfg, s, front, k) && IncrementsOnly(cfg, Interleave(cfg, s, front), actions[|actions| - 1], k))
  }

  /** Every operation that landed on k had read the value it found there. */
  predicate AllReadResident(cfg: Config, s: Sys, actions: seq<Action>, k: Key) {
    |actions| == 0 ||
    (var front, last := actions[..|actions| - 1], actions[|actions| - 1];
     var s1 := Interleave(cfg, s, front);
     && AllReadResident(cfg, s, front, k)
     && (Lands(s1, last, k) ==> k in s1.m && s1.m[k].data.Int? && s1.ops[last.id].e.data.i == s1.m[k].data.i))
  }

  /** An operation that has read a counter under k holds this value. */
  predicate Held(s: Sys, id: Id, k: Key) {
    id in s.ops && s.ops[id].Holding? && s.ops[id].op.Tally? && s.ops[id].op.key == k && s.ops[id].e.data.Int?
  }

  /** total: what the counter would be had nothing been lost. */
  ghost predicate Behind(s: Sys, k: Key, total: int, lossless: bool) {
    && k in s.m && s.m[k].data.Int?
    && s.m[k].data.i <= total && (s.m[k].data.i == total <==> lossless)
    && forall id :: Held(s, id, k) ==> HeldBehind(s.ops[id].e.data.i, s.m[k].data.i, total)
  }

  /** A held value is below the total, or both it and the resident value are the total. */
  predicate HeldBehind(held: int, resident: int, total: int) {
    held < total || held == resident == total
  }

  lemma {:induction false} LandingBehind(cfg: Config, s: Sys, a: Action, k: Key, total: int, lossless: bool)
    requires Behind(s, k, total, lossless) && Lands(s, a, k) && IncrementsOnly(cfg, s, a, k)
    requires total + s.ops[a.id].op.delta.n < TWO_63
    ensures var n := s.ops[a.id].op.delta.n;
            Behind(Perform(cfg, s, a), k, total + n, lossless && s.ops[a.id].e.data.i == s.m[k].data.i)
  {
    var n, held, s' := s.ops[a.id].op.delta.n, s.ops[a.id].e.data.i, Perform(cfg, s, a);
    assert Held(s, a.id, k);
    KeyStep(cfg, s, a, k);
    MoveIsLocal(cfg, s, a);
    assert s'.m[k].data == Int(held + n);
    assert !Held(s', a.id, k) by {
      assert s'.ops[a.id].Finished?;
    }
    forall id | Held(s', id, k) ensures HeldBehind(s'.ops[id].e.data.i, s'.m[k].data.i, total + n) {
      assert Held(s, id, k);
    }
  }

  /** A step that does not land may read; then it reads the resident value. */
  lemma {:induction false} NewlyHeld(cfg: Config, s: Sys, a: Action, id: Id, k: Key)
    requires Held(Perform(cfg, s, a), id, k) && !Held(s, id, k)
    ensures k in s.m && Perform(cfg, s, a).ops[id].e == s.m[k]
  {
    if a.Move? && Enabled(s, a) {
      MoveIsLocal(cfg, s, a);
    }
  }

  lemma {:induction false} QuietBehind(cfg: Config, s: Sys, a: Action, k: Key, total: int, lossless: bool)
    requires Behind(s, k, total, lossless) && !Lands(s, a, k) && IncrementsOnly(cfg, s, a, k)
    ensures Behind(Perform(cfg, s, a), k, total, lossless)
  {
    var s' := Perform(cfg, s, a);
    forall id | Held(s', id, k) ensures HeldBehind(s'.ops[id].e.data.i, s'.m[k].data.i, total) {
      if !Held(s, id, k) {
        NewlyHeld(cfg, s, a, id, k);
      } else {
        StaysHeld(cfg, s, a, id, k);
      }
    }
  }

  lemma {:induction false} StaysHeld(cfg: Config, s: Sys, a: Action, id: Id, k: Key)
    requires Held(s, id, k) && Held(Perform(cfg, s, a), id, k)
    ensures Perform(cfg, s, a).ops[id].e == s.ops[id].e
  {
    if a.Move? && Enabled(s, a) {
      MoveIsLocal(cfg, s, a);
    }
  }

  lemma {:induction false} StaysBehind(cfg: Config, s: Sys, actions: seq<Action>, k: Key)
    requires k in s.m && s.m[k].data.Int? && AllIncrements(cfg, s, actions, k)
    requires forall id :: !Held(s, id, k)
    requires s.m[k].data.i + Total(Landed(cfg, s, actions, k)) < TWO_63
    ensures Behind(Interleave(cfg, s, actions), k, s.m[k].data.i + Total(Landed(cfg, s, actions, k)),
                   AllReadResident(cfg, s, actions, k))
  {
    if |actions| > 0 {
      var front, last := actions[..|actions| - 1], actions[|actions| - 1];
      var s1, cs := Interleave(cfg, s, front), Landed(cfg, s, actions, k);
      if Lands(s1, last, k) {
        assert cs[..|cs| - 1] == Landed(cfg, s, front, k);
        StaysBehind(cfg, s, front, k);
        var total := s.m[k].data.i + Total(Landed(cfg, s, front, k));
        LandingBehind(cfg, s1, last, k, total, AllReadResident(cfg, s, front, k));
      } else {
        assert cs == Landed(cfg, s, front, k);
        StaysBehind(cfg, s, front, k);
        QuietBehind(cfg, s1, last, k, s.m[k].data.i + Total(cs), AllReadResident(cfg, s, front, k));
      }
    }
  }

  /**
   * Over every run in which only Increments change k and their sum does not overflow: the counter ends at its
   * start plus the sum of all that landed if and only if every one of them had read the value it found.
   */
  lemma {:induction false} IncrementsAllCountIff(cfg: Config, s: Sys, actions: seq<Action>, k: Key)
    requires k in s.m && s.m[k].data.Int? && AllIncrements(cfg, s, actions, k)
    requires forall id :: !Held(s, id, k)
    requires s.m[k].data.i + Total(Landed(cfg, s, actions, k)) < TWO_63
    ensures var s' := Interleave(cfg, s, actions);
            && k in s'.m && s'.m[k].data.Int?
            && (s'.m[k].data.i == s.m[k].data.i + Total(Landed(cfg, s, actions, k))
                <==> AllReadResident(cfg, s, actions, k))
  {
    StaysBehind(cfg, s, actions, k);
  }
}
