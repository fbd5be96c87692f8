/** Removals of expired entries: the reading, the judgement and the removal are separate steps. */
module Removals {
  import opened Entries
  import opened StoreSpec
  import opened Interleavings

  /** An entry on its way out was expired when it was judged, so it still is. */
  ghost predicate JudgedExpired(s: Sys) {
    forall id :: id in s.ops ==> JudgedAt(s.ops[id], s.clock)
  }

  lemma {:induction false} AlwaysJudgedExpired(cfg: Config, clock: int, actions: seq<Action>)
    ensures JudgedExpired(Interleave(cfg, Initial(clock), actions))
  {
    if |actions| > 0 {
      AlwaysJudgedExpired(cfg, clock, actions[..|actions| - 1]);
      JudgementStep(cfg, Interleave(cfg, Initial(clock), actions[..|actions| - 1]), actions[|actions| - 1]);
    }
  }

  lemma {:induction false} JudgementStep(cfg: Config, s: Sys, a: Action)
    requires JudgedExpired(s)
    ensures JudgedExpired(Perform(cfg, s, a))
  {
    var s' := Perform(cfg, s, a);
    if a.Move? && Enabled(s, a) {
      MoveIsLocal(cfg, s, a);
    }
    forall id | id in s'.ops ensures JudgedAt(s'.ops[id], s'.clock) {
      assert id in s.ops ==> JudgedAt(s.ops[id], s.clock);
    }
  }

  /** The key a removal step is about to drop. */
  function Target(l: Local): (k: Option<Key>) {
    match l
    case Condemned(Get(k, _), _) => Some(k)
    case Removing(k, _, _) => Some(k)
    case _ => None
  }

  /** The step at which a Get or a sweep reads the entry of k that it will judge. */
  predicate ReadsToJudge(s: Sys, a: Action, k: Key) {
    && a.Move? && a.id in s.ops && k in s.m
    && match s.ops[a.id]
       case Begin(op) => op.Get? && op.key == k
       case Rounds(todo) => |todo| > 0 && todo[0] == k
       case _ => false
  }

  /** The last write to k that landed. */
  function LastLanded(cfg: Config, s: Sys, actions: seq<Action>, k: Key): (e: Option<Entry>) {
    if |actions| == 0 then None
    else
      var front, last := actions[..|actions| - 1], actions[|actions| - 1];
      var s1 := Interleave(cfg, s, front);
      if Writes(s1, last, k) then Some(Written(cfg, s1, last, k)) else LastLanded(cfg, s, front, k)
  }

  /** If k is resident after some steps, it holds the last write that landed, or still what it held before. */
  lemma {:induction false} HoldsLastLanded(cfg: Config, s: Sys, actions: seq<Action>, k: Key)
    ensures var s', last := Interleave(cfg, s, actions), LastLanded(cfg, s, actions, k);
            k in s'.m ==> if last.Some? then s'.m[k] == last.value else k in s.m && s'.m[k] == s.m[k]
  {
    if |actions| > 0 {
      var front := actions[..|actions| - 1];
      HoldsLastLanded(cfg, s, front, k);
      KeyStep(cfg, Interleave(cfg, s, front), actions[|actions| - 1], k);
    }
  }

  /**
   * In every interleaving: a Get or a sweep reads the entry e of k, `since` happens, and its next step is the
   * removal of k on account of e.  That step drops k whatever it holds, and it drops an unexpired entry if and only
   * if some write to k landed since the reading and the last one to land is unexpired now.
   */
  lemma {:induction false} RemovalDropsFreshIff(cfg: Config, clock: int, actions: seq<Action>, read: Action,
                                                since: seq<Action>, k: Key, gone: set<Key>, order: seq<Key>)
    requires var s := Interleave(cfg, Initial(clock), actions);
             && ReadsToJudge(s, read, k)
             && var s' := Interleave(cfg, Perform(cfg, s, read), since);
             && k in s'.m && read.id in s'.ops
             && Target(s'.ops[read.id]) == Some(k) && s'.ops[read.id].e == s.m[k]
    ensures var s1 := Perform(cfg, Interleave(cfg, Initial(clock), actions), read);
            var s', last := Interleave(cfg, s1, since), LastLanded(cfg, s1, since, k);
            && Perform(cfg, s', Move(read.id, gone, order)).m == s'.m - {k}
            && (!Expired(s'.m[k], s'.clock) <==> last.Some? && !Expired(last.value, s'.clock))
  {
    var s := Interleave(cfg, Initial(clock), actions);
    var s1 := Perform(cfg, s, read);
    KeyStep(cfg, s, read, k);
    HoldsLastLanded(cfg, s1, since, k);
    var before := actions + [read];
    assert before[..|before| - 1] == actions;
    InterleaveAppends(cfg, Initial(clock), before, since);
    AlwaysJudgedExpired(cfg, clock, before + since);
  }

  lemma {:induction false} JudgeCondemns(cfg: Config, s: Sys, k: Key, want: Want, x: Id)
    requires k in s.m && Expired(s.m[k], s.clock) && x !in s.ops
    ensures Judge(cfg, s, k, want, x) == s.(ops := s.ops[x := Condemned(Get(k, want), s.m[k])])
  {
    var s1 := Perform(cfg, Perform(cfg, s, Start(x, Get(k, want))), Move(x, {}, []));
    assert s1 == s.(ops := s.ops[x := Holding(Get(k, want), s.m[k])]);
  }

  lemma {:induction false} SetForeverStores(cfg: Config, s: Sys, k: Key, g: Given, y: Id)
    requires y !in s.ops
    ensures var s' := SetForever(cfg, s, k, g, y);
            && s'.ops == s.ops[y := Finished(Done)] && s'.clock == s.clock
            && s'.m == s.m[k := Stamp(g, FOREVER, cfg.defaultExp, s.clock)]
  {
    var op := Set(k, g, FOREVER);
    var s1 := Perform(cfg, Perform(cfg, s, Start(y, op)), Move(y, {}, []));
    assert s1 == s.(ops := s.ops[y := Stamped(op, s.clock)]);
    assert s.m - {} == s.m;
  }

  /** A Get judges an expired entry, a Set for ever is answered, and the Get's removal drops that fresh write. */
  lemma {:induction false} FreshWriteCanBeRemoved(cfg: Config, s: Sys, k: Key, want: Want, g: Given, x: Id, y: Id)
    requires k in s.m && Expired(s.m[k], s.clock) && x != y && x !in s.ops && y !in s.ops
    ensures var s1 := Judge(cfg, s, k, want, x);
            var s2 := SetForever(cfg, s1, k, g, y);
            var s3 := Perform(cfg, s2, Move(x, {}, []));
            && y in s2.ops && s2.ops[y] == Finished(Done)
            && k in s2.m && !Expired(s2.m[k], s2.clock) && s2.m[k].data == Payload(g)
            && k !in s3.m
  {
    JudgeCondemns(cfg, s, k, want, x);
    SetForeverStores(cfg, Judge(cfg, s, k, want, x), k, g, y);
  }

  /** A Get runs up to the point where it has judged its entry. */
  function Judge(cfg: Config, s: Sys, k: Key, want: Want, x: Id): (s': Sys) {
    Perform(cfg, Perform(cfg, Perform(cfg, s, Start(x, Get(k, want))), Move(x, {}, [])), Move(x, {}, []))
  }

  function SetForever(cfg: Config, s: Sys, k: Key, g: Given, y: Id): (s': Sys) {
    Perform(cfg, Perform(cfg, Perform(cfg, s, Start(y, Set(k, g, FOREVER))), Move(y, {}, [])), Move(y, {}, []))
  }
}
