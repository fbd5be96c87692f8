/** Encryption is invisible: an encrypting cache and a plain one, call by call, over whole runs. */
module Transparency {
  import opened GoNumbers
  import opened Entries
  import opened StoreSpec
  import opened Crypto
  import opened GenericSpec

  datatype Call =
    | SetEntry(key: Key, e: Entry, exp: int64)
    | GetEntry(key: Key)
    | Exists(key: Key)
    | DeleteKey(key: Key)
    | FlushAll
    | Janitor(visits: seq<Visit>)

  /** A call with what it meets: the store's clock reading and the victims of its bounded map. */
  datatype Turn = Turn(call: Call, now: int, gone: set<Key>)

  function Answer(p: Params, cfg: Config, m: Resident, t: Turn): (r: (Resident, Reply))
    requires p.Good()
  {
    match t.call
    case SetEntry(k, e, exp) => CacheSet(p, cfg, m, k, Wrapped(e), exp, t.now, t.gone)
    case GetEntry(k) => CacheGet(p, m, k, t.now)
    case Exists(k) => CacheGet(p, m, k, t.now)
    case DeleteKey(k) => Step(cfg, m, Event(Delete(k), t.now, t.gone))
    case FlushAll => Step(cfg, m, Event(Flush, t.now, t.gone))
    case Janitor(visits) => Step(cfg, m, Event(Sweep(visits), t.now, t.gone))
  }

  function Contents(p: Params, cfg: Config, turns: seq<Turn>): (m: Resident)
    requires p.Good()
  {
    if |turns| == 0 then map[]
    else Answer(p, cfg, Contents(p, cfg, turns[..|turns| - 1]), turns[|turns| - 1]).0
  }

  /** Everything the cache answered, call by call, from empty. */
  function Replies(p: Params, cfg: Config, turns: seq<Turn>): (rs: seq<Reply>)
    requires p.Good()
    ensures |rs| == |turns|
  {
    if |turns| == 0 then []
    else
      var front := turns[..|turns| - 1];
      Replies(p, cfg, front) + [Answer(p, cfg, Contents(p, cfg, front), turns[|turns| - 1]).1]
  }

  lemma TurnAppends(p: Params, cfg: Config, turns: seq<Turn>, t: Turn)
    requires p.Good()
    ensures var a := Answer(p, cfg, Contents(p, cfg, turns), t);
            Contents(p, cfg, turns + [t]) == a.0 && Replies(p, cfg, turns + [t]) == Replies(p, cfg, turns) + [a.1]
  {
    assert (turns + [t])[..|turns|] == turns;
  }

  /** The plain entry and the sealed one: same stamps, and the sealed data is the encrypted encoding. */
  ghost predicate SealedAs(p: Params, e: Entry, s: Entry)
    requires p.Good()
  {
    && s.timeAdded == e.timeAdded && s.expiresAt == e.expiresAt
    && p.codec.encode(e.data).Some?
    && s.data.Raw? && EncryptEntry(p.cipher, p.secret, p.codec.encode(e.data).value) == Success(s.data.b)
  }

  ghost predicate Mirrors(p: Params, m: Resident, sealed: Resident)
    requires p.Good()
  {
    m.Keys == sealed.Keys && forall k :: k in m ==> SealedAs(p, m[k], sealed[k])
  }

  predicate Sealable(p: Params, c: Call) {
    c.SetEntry? ==> |p.secret| >= BLOCK && p.codec.encode(c.e.data).Some?
  }

  function Plain(p: Params): (q: Params) {
    p.(encrypt := false)
  }

  function Encrypting(p: Params): (q: Params) {
    p.(encrypt := true)
  }

  lemma {:induction false} DisclosesWhatWasSealed(p: Params, e: Entry, s: Entry)
    requires p.Good() && SealedAs(p, e, s)
    ensures Disclose(Encrypting(p), s) == HitEntry(e)
  {
    EntryRoundTrip(p.cipher, p.secret, p.secret, p.codec.encode(e.data).value);
  }

  lemma {:induction false} SweepMirrors(p: Params, m: Resident, sealed: Resident, visits: seq<Visit>)
    requires p.Good() && Mirrors(p, m, sealed)
    ensures Mirrors(p, StepSweep(m, visits), StepSweep(sealed, visits))
  {
    if |visits| > 0 {
      SweepMirrors(p, m, sealed, visits[..|visits| - 1]);
    }
  }

  lemma {:induction false} SetMirrors(p: Params, cfg: Config, m: Resident, sealed: Resident, t: Turn)
    requires p.Good() && Mirrors(p, m, sealed) && t.call.SetEntry? && Sealable(p, t.call)
    ensures var a, b := Answer(Plain(p), cfg, m, t), Answer(Encrypting(p), cfg, sealed, t);
            a.1 == b.1 && Mirrors(p, a.0, b.0)
  {
  }

  lemma {:induction false} GetMirrors(p: Params, m: Resident, sealed: Resident, k: Key, now: int)
    requires p.Good() && Mirrors(p, m, sealed)
    ensures var a, b := CacheGet(Plain(p), m, k, now), CacheGet(Encrypting(p), sealed, k, now);
            a.1 == b.1 && Mirrors(p, a.0, b.0)
  {
    if k !in m {
      assert StepGet(m, k, WantEntry, now) == (m, Failed(CacheMiss));
      assert StepGet(sealed, k, WantEntry, now) == (sealed, Failed(CacheMiss));
    } else if Expired(m[k], now) {
      RemovalMirrors(p, m, sealed, k);
      assert StepGet(m, k, WantEntry, now) == (m - {k}, Failed(CacheMiss));
      assert StepGet(sealed, k, WantEntry, now) == (sealed - {k}, Failed(CacheMiss));
    } else {
      DisclosesWhatWasSealed(p, m[k], sealed[k]);
      assert StepGet(m, k, WantEntry, now) == (m, HitEntry(m[k]));
      assert StepGet(sealed, k, WantEntry, now) == (sealed, HitEntry(sealed[k]));
    }
  }

  lemma {:induction false} RemovalMirrors(p: Params, m: Resident, sealed: Resident, k: Key)
    requires p.Good() && Mirrors(p, m, sealed)
    ensures Mirrors(p, m - {k}, sealed - {k})
  {
  }

  lemma {:induction false} DeleteMirrors(p: Params, cfg: Config, m: Resident, sealed: Resident, k: Key, ev: Event)
    requires p.Good() && Mirrors(p, m, sealed) && ev.op == Delete(k)
    ensures var a, b := Step(cfg, m, ev), Step(cfg, sealed, ev);
            a.1 == b.1 && Mirrors(p, a.0, b.0)
  {
    if k in m {
      RemovalMirrors(p, m, sealed, k);
      assert Step(cfg, m, ev) == (m - {k}, Done) && Step(cfg, sealed, ev) == (sealed - {k}, Done);
    } else {
      assert Step(cfg, m, ev) == (m, Failed(CacheMiss)) && Step(cfg, sealed, ev) == (sealed, Failed(CacheMiss));
    }
  }

  lemma {:induction false} TurnMirrors(p: Params, cfg: Config, m: Resident, sealed: Resident, t: Turn)
    requires p.Good() && Mirrors(p, m, sealed) && Sealable(p, t.call)
    ensures var a, b := Answer(Plain(p), cfg, m, t), Answer(Encrypting(p), cfg, sealed, t);
            a.1 == b.1 && Mirrors(p, a.0, b.0)
  {
    if t.call.SetEntry? {
      SetMirrors(p, cfg, m, sealed, t);
    } else if t.call.GetEntry? || t.call.Exists? {
      GetMirrors(p, m, sealed, t.call.key, t.now);
    } else if t.call.DeleteKey? {
      DeleteMirrors(p, cfg, m, sealed, t.call.key, Event(Delete(t.call.key), t.now, t.gone));
    } else if t.call.Janitor? {
      SweepMirrors(p, m, sealed, t.call.visits);
    }
  }

  lemma {:induction false} RunMirrors(p: Params, cfg: Config, turns: seq<Turn>)
    requires p.Good() && forall t <- turns :: Sealable(p, t.call)
    ensures Replies(Plain(p), cfg, turns) == Replies(Encrypting(p), cfg, turns)
    ensures Mirrors(p, Contents(Plain(p), cfg, turns), Contents(Encrypting(p), cfg, turns))
  {
    if |turns| > 0 {
      var front, last := turns[..|turns| - 1], turns[|turns| - 1];
      RunMirrors(p, cfg, front);
      assert last in turns;
      TurnMirrors(p, cfg, Contents(Plain(p), cfg, front), Contents(Encrypting(p), cfg, front), last);
    }
  }

  lemma {:induction false} ReplyAt(p: Params, cfg: Config, turns: seq<Turn>, i: nat)
    requires p.Good() && i < |turns|
    ensures Replies(p, cfg, turns)[i] == Answer(p, cfg, Contents(p, cfg, turns[..i]), turns[i]).1
  {
    if i < |turns| - 1 {
      var front := turns[..|turns| - 1];
      ReplyAt(p, cfg, front, i);
      assert front[..i] == turns[..i];
    }
  }

  /**
   * A Set that cannot be sealed is accepted by the plain cache and refused by the encrypting one, which keeps its
   * contents: the encoder has its say before the secret is looked at.
   */
  lemma {:induction false} RefusedWhenNotSealable(p: Params, cfg: Config, m: Resident, sealed: Resident, t: Turn)
    requires p.Good() && !Sealable(p, t.call)
    ensures Answer(Plain(p), cfg, m, t).1 == Done
    ensures Answer(Encrypting(p), cfg, sealed, t)
            == (sealed, Failed(if p.codec.encode(t.call.e.data).None? then EncodeFailed else SecretTooShort))
  {
  }

  /**
   * Over every run of Set (of entries), Get, Exists, Delete, Flush and sweeps, with the same clock readings
   * and the same victims, the encrypting cache gives the same data, stamps and errors as the plain one if and
   * only if every entry set in the run can be encoded under a secret of at least 16 bytes.
   */
  lemma {:induction false} EncryptionIsTransparentIff(p: Params, cfg: Config, turns: seq<Turn>)
    requires p.Good()
    ensures Replies(Plain(p), cfg, turns) == Replies(Encrypting(p), cfg, turns)
            <==> forall t <- turns :: Sealable(p, t.call)
  {
    if forall t <- turns :: Sealable(p, t.call) {
      RunMirrors(p, cfg, turns);
    } else {
      var t :| t in turns && !Sealable(p, t.call);
      var i :| 0 <= i < |turns| && turns[i] == t;
      ReplyAt(Plain(p), cfg, turns, i);
      ReplyAt(Encrypting(p), cfg, turns, i);
      RefusedWhenNotSealable(p, cfg, Contents(Plain(p), cfg, turns[..i]), Contents(Encrypting(p), cfg, turns[..i]), t);
    }
  }
}
