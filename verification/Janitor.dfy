/**
 * The janitor goroutine and its stop channel (inmemory.go): Run makes an unbuffered channel, then selects
 * between ticks and the channel; stopJanitor sends on whatever the field holds at that moment.
 */
module Janitor {

  datatype RunPc = Spawned | Selecting | Sweeping | Returned

  /** A send on the nil channel blocks for good; a send on the real one waits for Run to receive. */
  datatype StopPc = BlockedOnNil | Sending | Sent

  datatype Janitor = Janitor(run: RunPc, stops: map<nat, StopPc>)

  datatype Action =
    | MakeChannel
    | BeginSweep          // the tick case of the select was taken
    | EndSweep
    | CallStop(id: nat)   // stopJanitor evaluates the stop field and starts to send
    | Rendezvous(id: nat) // the send meets the receive of the select

  predicate Enabled(j: Janitor, a: Action) {
    match a
    case MakeChannel => j.run == Spawned
    case BeginSweep => j.run == Selecting
    case EndSweep => j.run == Sweeping
    case CallStop(id) => id !in j.stops
    case Rendezvous(id) => j.run == Selecting && id in j.stops && j.stops[id] == Sending
  }

  function Perform(j: Janitor, a: Action): (j': Janitor) {
    match a
    case MakeChannel => j.(run := Selecting)
    case BeginSweep => j.(run := Sweeping)
    case EndSweep => j.(run := Selecting)
    case CallStop(id) => j.(stops := j.stops[id := if j.run == Spawned then BlockedOnNil else Sending])
    case Rendezvous(id) => Janitor(Returned, j.stops[id := Sent])
  }

  function After(acts: seq<Action>): (j: Janitor) {
    if |acts| == 0 then Janitor(Spawned, map[]) else Perform(After(acts[..|acts| - 1]), acts[|acts| - 1])
  }

  /** The interleavings that can happen. */
  predicate Possible(acts: seq<Action>) {
    |acts| == 0 || (Possible(acts[..|acts| - 1]) && Enabled(After(acts[..|acts| - 1]), acts[|acts| - 1]))
  }

  // ----- Facts about an interleaving, told by the positions of its actions -----

  ghost predicate Happened(acts: seq<Action>, a: Action) {
    exists i :: 0 <= i < |acts| && acts[i] == a
  }

  /** a happened, and b some time after it. */
  ghost predicate InOrder(acts: seq<Action>, a: Action, b: Action) {
    exists i, j :: 0 <= i < j < |acts| && acts[i] == a && acts[j] == b
  }

  ghost predicate SweepEndsAfter(acts: seq<Action>, i: nat) {
    exists j :: i < j < |acts| && acts[j] == EndSweep
  }

  ghost predicate SweepsEnded(acts: seq<Action>) {
    forall i :: 0 <= i < |acts| && acts[i] == BeginSweep ==> SweepEndsAfter(acts, i)
  }

  ghost predicate Stopped(acts: seq<Action>) {
    exists i :: 0 <= i < |acts| && acts[i].Rendezvous?
  }

  /** The state of the two goroutines says what must have happened before. */
  ghost predicate Inv(acts: seq<Action>, j: Janitor) {
    && (j.run != Spawned <==> Happened(acts, MakeChannel))
    && (j.run == Selecting ==> SweepsEnded(acts))
    && (j.run == Spawned ==> SweepsEnded(acts))
    && (Stopped(acts) <==> j.run == Returned)
    && (forall id :: id in j.stops && j.stops[id] == Sending ==> InOrder(acts, MakeChannel, CallStop(id)))
  }

  /** Facts about a prefix stay facts about the whole. */
  lemma PrefixFacts(acts: seq<Action>)
    requires |acts| > 0
    ensures var front := acts[..|acts| - 1];
            && (forall a :: Happened(front, a) ==> Happened(acts, a))
            && (forall a :: Happened(front, a) ==> InOrder(acts, a, acts[|acts| - 1]))
            && (forall a, b :: InOrder(front, a, b) ==> InOrder(acts, a, b))
            && (forall i: nat :: SweepEndsAfter(front, i) ==> SweepEndsAfter(acts, i))
            && (SweepsEnded(front) && acts[|acts| - 1] != BeginSweep ==> SweepsEnded(acts))
            && Happened(acts, acts[|acts| - 1])
            && (acts[|acts| - 1] == EndSweep ==> SweepsEnded(acts))
  {
  }

  lemma {:induction false} Invariant(acts: seq<Action>)
    requires Possible(acts)
    ensures Inv(acts, After(acts))
  {
    if |acts| > 0 {
      var front, last := acts[..|acts| - 1], acts[|acts| - 1];
      Invariant(front);
      PrefixFacts(acts);
      if Stopped(acts) && !last.Rendezvous? {
        var i :| 0 <= i < |acts| && acts[i].Rendezvous?;
        assert front[i].Rendezvous?;
      }
      if Happened(acts, MakeChannel) && last != MakeChannel {
        var i :| 0 <= i < |acts| && acts[i] == MakeChannel;
        assert front[i] == MakeChannel;
      }
      if Stopped(front) {
        var i :| 0 <= i < |front| && front[i].Rendezvous?;
        assert acts[i].Rendezvous?;
      }
    }
  }

  /**
   * In every interleaving: a stop completes only once every sweep begun has ended and after the channel was
   * made; after it nothing but further stop calls can happen, so no sweep begins and no second stop completes.
   */
  lemma {:induction false} StopProtocol(acts: seq<Action>, i: nat)
    requires Possible(acts) && i < |acts| && acts[i].Rendezvous?
    ensures InOrder(acts[..i], MakeChannel, CallStop(acts[i].id))
    ensures SweepsEnded(acts[..i])
    ensures forall n :: i < n < |acts| ==> acts[n].CallStop?
  {
    var front, last := acts[..|acts| - 1], acts[|acts| - 1];
    Invariant(front);
    if i == |acts| - 1 {
      assert acts[..i] == front;
    } else {
      assert front[..i] == acts[..i] && front[i] == acts[i];
      StopProtocol(front, i);
      assert Stopped(front);
      forall n | i < n < |acts| ensures acts[n].CallStop? {
        assert n < |acts| - 1 ==> acts[n] == front[n];
      }
    }
  }

  // ----- Which stop calls can complete -----

  /** What has become of the stop called at position i. */
  lemma {:induction false} StopCallState(acts: seq<Action>, i: nat)
    requires Possible(acts) && i < |acts| && acts[i].CallStop?
    ensures var id, stops := acts[i].id, After(acts).stops;
            && id in stops
            && (stops[id] == BlockedOnNil <==> !Happened(acts[..i], MakeChannel))
            && (stops[id] == Sent ==> Happened(acts, Rendezvous(id)))
  {
    var front, last := acts[..|acts| - 1], acts[|acts| - 1];
    Invariant(front);
    PrefixFacts(acts);
    if i == |acts| - 1 {
      assert acts[..i] == front;
    } else {
      assert front[..i] == acts[..i] && front[i] == acts[i];
      StopCallState(front, i);
    }
  }

  /** A stop called before the goroutine has made its channel never completes, whatever happens later. */
  lemma {:induction false} EarlyStopBlocksForGood(acts: seq<Action>, i: nat, n: nat)
    requires Possible(acts) && i < n < |acts| && acts[i].CallStop? && !Happened(acts[..i], MakeChannel)
    ensures acts[n] != Rendezvous(acts[i].id)
  {
    PrefixPossible(acts, n);
    assert acts[..n][..i] == acts[..i];
    StopCallState(acts[..n], i);
  }

  /** Such a call is possible: it can be the very first thing that happens. */
  lemma EarlyStopHappens(id: nat)
    ensures Possible([CallStop(id)]) && !Happened([], MakeChannel)
    ensures After([CallStop(id)]).stops == map[id := BlockedOnNil]
  {
    assert [CallStop(id)][..0] == [];
    assert Possible([]) && After([]) == Janitor(Spawned, map[]);
  }

  lemma {:induction false} PrefixPossible(acts: seq<Action>, n: nat)
    requires Possible(acts) && n < |acts|
    ensures Possible(acts[..n]) && Enabled(After(acts[..n]), acts[n])
  {
    if n < |acts| - 1 {
      PrefixPossible(acts[..|acts| - 1], n);
      assert acts[..|acts| - 1][..n] == acts[..n];
    }
  }

  /** A continuation of the interleaving in which the stop completes as the last action. */
  ghost predicate CompletesAfter(acts: seq<Action>, more: seq<Action>, id: nat) {
    Possible(acts + more + [Rendezvous(id)])
  }

  lemma PossibleAppends(acts: seq<Action>, a: Action)
    requires Possible(acts) && Enabled(After(acts), a)
    ensures Possible(acts + [a]) && After(acts + [a]) == Perform(After(acts), a)
  {
    assert (acts + [a])[..|acts|] == acts;
  }

  /**
   * A stop still pending can complete in some continuation if and only if it was called after the channel was
   * made and no stop has completed yet.
   */
  lemma {:induction false} PendingStopCompletesIff(acts: seq<Action>, i: nat)
    requires Possible(acts) && i < |acts| && acts[i].CallStop? && !Happened(acts, Rendezvous(acts[i].id))
    ensures (exists more :: CompletesAfter(acts, more, acts[i].id))
            <==> Happened(acts[..i], MakeChannel) && !Stopped(acts)
  {
    var id := acts[i].id;
    if Happened(acts[..i], MakeChannel) && !Stopped(acts) {
      StopCallState(acts, i);
      Invariant(acts);
      StillRunning(acts, i);
      var j := After(acts);
      if j.run == Sweeping {
        PossibleAppends(acts, EndSweep);
        PossibleAppends(acts + [EndSweep], Rendezvous(id));
        assert CompletesAfter(acts, [EndSweep], id);
      } else {
        PossibleAppends(acts, Rendezvous(id));
        assert acts + [] + [Rendezvous(id)] == acts + [Rendezvous(id)];
        assert CompletesAfter(acts, [], id);
      }
    }
    forall more | CompletesAfter(acts, more, id) ensures Happened(acts[..i], MakeChannel) && !Stopped(acts) {
      var all := acts + more + [Rendezvous(id)];
      var n := |all| - 1;
      assert all[..i] == acts[..i] && all[i] == acts[i] && all[n] == Rendezvous(id);
      if !Happened(acts[..i], MakeChannel) {
        EarlyStopBlocksForGood(all, i, n);
      }
      if Stopped(acts) {
        var r :| 0 <= r < |acts| && acts[r].Rendezvous?;
        assert all[r] == acts[r];
        StopProtocol(all, r);
      }
    }
  }

  /** Once the channel was made and until a stop completes, Run is selecting or sweeping. */
  lemma StillRunning(acts: seq<Action>, i: nat)
    requires Possible(acts) && i <= |acts| && Happened(acts[..i], MakeChannel) && !Stopped(acts)
    ensures After(acts).run == Selecting || After(acts).run == Sweeping
  {
    Invariant(acts);
    var n :| 0 <= n < i && acts[..i][n] == MakeChannel;
    assert acts[n] == MakeChannel;
  }
}
