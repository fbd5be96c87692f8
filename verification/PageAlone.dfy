/** A request nobody interrupts: the step-by-step model and the CachePage method agree on it. */
module PageAlone {
  import opened Entries
  import opened StoreSpec
  import opened PageCache
  import opened PageRuns

  /** One step of the lookup, after a pause. */
  function Look(w: Wrapper, s: Sys, q: Req, pause: nat): (s': Sys) {
    Perform(w, Perform(w, s, Tick(pause)), Advance(q, {}))
  }

  /** The whole lookup: the LRU call, the judgement, and the removal if there is one. */
  function LookAll(w: Wrapper, s: Sys, q: Req, d1: nat, d2: nat, d3: nat): (s': Sys) {
    Look(w, Look(w, Look(w, s, q, d1), q, d2), q, d3)
  }

  /** It leads to the verdict of CachePage, at the reading of its judgement. */
  lemma {:induction false} LookupAlone(w: Wrapper, s: Sys, q: Req, d1: nat, d2: nat, d3: nat)
    requires Known(s, q) && s.reqs[q].Inside?
    ensures var k, s' := s.reqs[q].key, LookAll(w, s, q, d1, d2, d3);
            var (m, r) := StepGet(s.m, k, WantPage, s.clock + d1 + d2);
            && Known(s', q) && s'.m == m && s'.headers == s.headers && s'.clock == s.clock + d1 + d2 + d3
            && s'.reqs[q] == match Judge(r, s.headers)
                             case Cached(page) => Serving(k, page)
                             case RunIt => Handling(k, 0)
                             case Crash => Finished(k)
  {
    var k := s.reqs[q].key;
    var s1 := Look(w, s, q, d1);
    assert s1.m == s.m && s1.clock == s.clock + d1 && s1.headers == s.headers && s1.edits == s.edits;
    assert s1.reqs[q] == Looked(k, if k in s.m then Some(s.m[k]) else None, LastWrite(s.log, k));
    var s2 := Look(w, s1, q, d2);
    DecideAlone(w, Perform(w, s1, Tick(d2)), q);
    assert s2.m == s.m && s2.clock == s.clock + d1 + d2 && s2.headers == s.headers && s2.edits == s.edits;
  }

  lemma {:induction false} DecideAlone(w: Wrapper, s: Sys, q: Req)
    requires Known(s, q) && s.reqs[q].Looked?
    ensures var Looked(k, hit, _) := s.reqs[q];
            var s' := Perform(w, s, Advance(q, {}));
            && s'.m == s.m && s'.clock == s.clock && s'.headers == s.headers && s'.edits == s.edits && q in s'.reqs
            && s'.reqs[q] == if hit.None? then Handling(k, 0)
                             else if Expired(hit.value, s.clock) then Condemned(k)
                             else match Judge(Deliver(hit.value, WantPage), s.headers)
                                  case Cached(page) => Serving(k, page)
                                  case RunIt => Handling(k, 0)
                                  case Crash => Finished(k)
  {
  }

  /** A pause, an action of the handler, and the LRU write it may lead to. */
  datatype Beat = Beat(pause: nat, act: Act, gone: set<Key>)

  function DoBeat(w: Wrapper, s: Sys, q: Req, b: Beat): (s': Sys) {
    Perform(w, Perform(w, Perform(w, s, Tick(b.pause)), Handle(q, b.act)), Advance(q, b.gone))
  }

  function DoBeats(w: Wrapper, s: Sys, q: Req, beats: seq<Beat>): (s': Sys) {
    if |beats| == 0 then s else DoBeat(w, DoBeats(w, s, q, beats[..|beats| - 1]), q, beats[|beats| - 1])
  }

  function ActsOf(beats: seq<Beat>): (acts: seq<Act>) {
    if |beats| == 0 then [] else ActsOf(beats[..|beats| - 1]) + [beats[|beats| - 1].act]
  }

  lemma {:induction false} BeatAlone(w: Wrapper, s: Sys, q: Req, b: Beat)
    requires Known(s, q) && s.reqs[q].Handling?
    ensures var Handling(k, status) := s.reqs[q];
            var s' := DoBeat(w, s, q, b);
            && Known(s', q) && s'.clock == s.clock + b.pause
            && s'.reqs[q] == Handling(k, if b.act.WriteHeader? then b.act.code else status)
            && s'.headers == (if b.act.Headers? then s.headers[q := b.act.h] else s.headers)
            && (if b.act.Write? && b.act.taken.Whole?
                then k in s'.m && s'.m[k] == Stamp(Chunk(status, q, b.act.data), w.expire, w.defaultExp, s'.clock)
                else s'.m == s.m)
  {
    var s1 := Perform(w, s, Tick(b.pause));
    var s2 := Perform(w, s1, Handle(q, b.act));
    assert s2.m == s.m && s2.clock == s.clock + b.pause && Known(s2, q);
  }

  /** What a handler leaves behind under k: its last taken chunk stamped at `at`, or what was there. */
  ghost predicate Left(w: Wrapper, m: Resident, m0: Resident, k: Key, q: Req, acts: seq<Act>, at: int) {
    if LastChunk(acts).None? then m == m0
    else
      var (status, data) := LastChunk(acts).value;
      k in m && m[k] == Stamp(Chunk(status, q, data), w.expire, w.defaultExp, at)
  }

  /** From s the handler of q has come to s' by these actions. */
  ghost predicate Came(w: Wrapper, s: Sys, s': Sys, q: Req, k: Key, acts: seq<Act>, at: int)
    requires q in s.headers
  {
    && Known(s', q) && s'.reqs[q] == Handling(k, StatusAfter(acts)) && s.clock <= at <= s'.clock
    && s'.headers == s.headers[q := HeaderAfter(s.headers[q], acts)]
    && Left(w, s'.m, s.m, k, q, acts, at)
  }

  lemma {:induction false} CameFurther(w: Wrapper, s: Sys, s1: Sys, q: Req, k: Key, acts: seq<Act>, at: int, b: Beat)
    requires q in s.headers && Came(w, s, s1, q, k, acts, at)
    ensures Came(w, s, DoBeat(w, s1, q, b), q, k, acts + [b.act],
                 if b.act.Write? && b.act.taken.Whole? then s1.clock + b.pause else at)
  {
    var s' := DoBeat(w, s1, q, b);
    var at' := if b.act.Write? && b.act.taken.Whole? then s1.clock + b.pause else at;
    assert Left(w, s'.m, s.m, k, q, acts + [b.act], at') by {
      BeatAlone(w, s1, q, b);
      OneMoreAct(acts, b.act, s.headers[q], 0);
    }
    assert Known(s', q) && s'.clock == s1.clock + b.pause && s'.reqs[q] == Handling(k, StatusAfter(acts + [b.act])) by {
      BeatAlone(w, s1, q, b);
      OneMoreAct(acts, b.act, s.headers[q], 0);
    }
    assert s'.headers == s.headers[q := HeaderAfter(s.headers[q], acts + [b.act])] by {
      BeatAlone(w, s1, q, b);
      OneMoreAct(acts, b.act, s.headers[q], 0);
    }
  }

  /** The actions of a handler, one after the other: what RunHandler says of status, header map and store. */
  lemma {:induction false} HandlerAlone(w: Wrapper, s: Sys, q: Req, k: Key, beats: seq<Beat>) returns (at: int)
    requires Known(s, q) && s.reqs[q] == Handling(k, 0)
    ensures Came(w, s, DoBeats(w, s, q, beats), q, k, ActsOf(beats), at)
  {
    if |beats| == 0 {
      at := s.clock;
    } else {
      var front, last := beats[..|beats| - 1], beats[|beats| - 1];
      at := HandlerAlone(w, s, q, k, front);
      var s1 := DoBeats(w, s, q, front);
      CameFurther(w, s, s1, q, k, ActsOf(front), at, last);
      at := if last.act.Write? && last.act.taken.Whole? then s1.clock + last.pause else at;
    }
  }

  /**
   * From the lookup to the end of the handler, with pauses anywhere: verdict, contents and header maps are those
   * CachePage promises for the same contents, header maps and handler.
   */
  lemma {:induction false} RequestAlone(w: Wrapper, s: Sys, q: Req, d1: nat, d2: nat, d3: nat, beats: seq<Beat>)
    returns (looked: int, at: int)
    requires Known(s, q) && s.reqs[q].Inside?
    ensures var k, acts := s.reqs[q].key, ActsOf(beats);
            var s1 := LookAll(w, s, q, d1, d2, d3);
            var s' := DoBeats(w, s1, q, beats);
            var (m, r) := StepGet(s.m, k, WantPage, looked);
            var v := Judge(r, s.headers);
            && s.clock <= looked <= s1.clock && Known(s1, q)
            && (v.Cached? ==> s1.reqs[q] == Serving(k, v.page) && s1.m == s.m && s1.headers == s.headers)
            && (v.Crash? ==> s1.reqs[q] == Finished(k) && s1.m == m && s1.headers == s.headers)
            && (v.RunIt? ==>
                  && s'.headers == s.headers[q := HeaderAfter(s.headers[q], acts)]
                  && looked <= at <= s'.clock && Left(w, s'.m, m, k, q, acts, at))
  {
    var k := s.reqs[q].key;
    looked := s.clock + d1 + d2;
    at := looked;
    LookupAlone(w, s, q, d1, d2, d3);
    var s1 := LookAll(w, s, q, d1, d2, d3);
    if s1.reqs[q].Handling? {
      at := HandlerAlone(w, s1, q, k, beats);
    }
  }
}
