/** GenericCache over an in-memory store, as functions of the store's contents (generic.go). */
module GenericSpec {
  import opened GoNumbers
  import opened Entries
  import opened StoreSpec
  import opened Crypto

  /** gob: encoding may refuse a value; what it accepts it writes as at least one byte and reads back. */
  datatype Codec = Codec(encode: Value -> Option<Bytes>, decode: Bytes -> Option<Value>)
  {
    ghost predicate Faithful() {
      forall v: Value :: encode(v).Some? ==> |encode(v).value| > 0 && decode(encode(v).value) == Some(v)
    }
  }

  datatype Params = Params(secret: Bytes, defaultExp: int64, encrypt: bool, cipher: Cipher, codec: Codec)
  {
    ghost predicate Good() {
      cipher.Invertible() && codec.Faithful()
    }
  }

  /** What Set hands to the store: with encryption, an entry's data is encoded and encrypted first. */
  function Prepare(p: Params, g: Given): (r: Outcome<Given>)
    requires p.Good()
  {
    if !p.encrypt || g.Bare? then Success(g)
    else
      match p.codec.encode(g.e.data)
      case None => Failure(EncodeFailed)
      case Some(b) =>
        match EncryptEntry(p.cipher, p.secret, b)
        case Success(ct) => Success(Wrapped(g.e.(data := Raw(ct))))
        case Failure(err) => Failure(err)
        case Panic => Panic
  }

  /** What Get makes of the entry the store delivered. */
  function Disclose(p: Params, e: Entry): (r: Reply)
    requires p.Good()
  {
    if !p.encrypt then HitEntry(e)
    else if !e.data.Raw? then Panicked
    else
      match DecryptEntry(p.cipher, p.secret, e.data.b)
      case Failure(err) => Failed(err)
      case Panic => Panicked
      case Success(b) =>
        match p.codec.decode(b)
        case None => Failed(DecodeFailed)
        case Some(v) => HitEntry(e.(data := v))
  }

  function Chosen(p: Params, exp: int64): (t: int64) {
    if exp != 0 then exp else p.defaultExp
  }

  function CacheSet(p: Params, cfg: Config, m: Resident, k: Key, g: Given, exp: int64, now: int, gone: set<Key>)
    : (r: (Resident, Reply))
    requires p.Good()
  {
    match Prepare(p, g)
    case Success(g') => Step(cfg, m, Event(Set(k, g', Chosen(p, exp)), now, gone))
    case Failure(err) => (m, Failed(err))
    case Panic => (m, Panicked)
  }

  function CacheGet(p: Params, m: Resident, k: Key, now: int): (r: (Resident, Reply))
    requires p.Good()
  {
    var (m', r) := StepGet(m, k, WantEntry, now);
    (m', if r.HitEntry? then Disclose(p, r.e) else r)
  }

  // ----- AddExistingEntry -----

  /** The duration AddExistingEntry asks for: whole seconds from its own clock reading, as an int64 product. */
  function Remaining(expiresAt: int64, now: int): (exp: int64) {
    Wrap64(Wrap64(expiresAt - Unix(now)) * SECOND)
  }

  /**
   * AddExistingEntry reads the clock at n1, the store again at n2.  The stored expiry is the requested one
   * shifted by the seconds that passed in between, if and only if the request is not the very second of the
   * first reading (that one means "use the default") or the default adds nothing.
   */
  lemma ExistingExpiryIff(g: Given, expiresAt: int64, def: int64, n1: int, n2: int)
    requires -TWO_63 <= (expiresAt - Unix(n1)) * SECOND < TWO_63
    requires -TWO_63 <= expiresAt + (Unix(n2) - Unix(n1)) < TWO_63
    requires -TWO_63 <= Unix(n2) + TruncDiv(def, SECOND) < TWO_63
    ensures Stamp(g, Remaining(expiresAt, n1), def, n2).expiresAt == expiresAt + (Unix(n2) - Unix(n1))
            <==> expiresAt != Unix(n1) || TruncDiv(def, SECOND) == 0
    ensures expiresAt == Unix(n1) ==> Stamp(g, Remaining(expiresAt, n1), def, n2) == Stamp(g, 0, def, n2)
  {
  }

  /** A request for "never" stays "never" exactly while no second passes; one second later it is long expired. */
  lemma ExistingForeverIff(e: Entry, def: int64, n1: int, n2: int)
    requires SECOND <= n1 <= n2 < TWO_63
    ensures Stamp(Wrapped(e), Remaining(0, n1), def, n2).expiresAt == 0 <==> Unix(n1) == Unix(n2)
  {
  }
}
