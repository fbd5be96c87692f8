/**
 * Cache entries and their time stamps (generic.go, inmemory.go).  An instant is a count of nanoseconds
 * since the Unix epoch; stamps are whole seconds, as the code stores them.
 */
module Entries {
  import opened GoNumbers

  type Key = string
  type byte = b: int | 0 <= b < 256
  type Bytes = seq<byte>

  /** Which http.Header map a cached page points at: the map is shared, not copied. */
  type HeaderRef = nat

  /** The dynamic type and value behind an interface{} that is kept in the store. */
  datatype Value =
    | Str(s: string)
    | Int(i: int64)
    | Raw(b: Bytes)
    | Page(status: int64, header: HeaderRef, body: Bytes)
    | Other(typeName: string, id: int)

  datatype Entry = Entry(data: Value, timeAdded: int64, expiresAt: int64)

  /** What a caller hands to Set, Add and Replace: a bare value, or a GenericCacheEntry around one. */
  datatype Given = Bare(v: Value) | Wrapped(e: Entry)

  datatype Error =
    | CacheMiss | NotStored | NotSupported
    | PaddingSize | SecretTooShort | EncodeFailed | DecodeFailed | NoCache

  datatype Outcome<+T> = Success(value: T) | Failure(error: Error) | Panic

  datatype Option<+T> = None | Some(value: T)

  /** persistence.FOREVER; persistence.DEFAULT is 0. */
  const FOREVER: int64 := -1

  /** time.Now().Unix(): whole seconds, rounded toward the past. */
  function Unix(now: int): (s: int64) {
    Wrap64(now / SECOND)
  }

  predicate Expired(e: Entry, now: int) {
    e.expiresAt != 0 && e.expiresAt * SECOND < now
  }

  function ExpiryFor(exp: int64, defaultExp: int64, now: int): (at: int64) {
    if exp == FOREVER then 0
    else if exp != 0 then Wrap64(Unix(now) + TruncDiv(exp, SECOND))
    else Wrap64(Unix(now) + TruncDiv(defaultExp, SECOND))
  }

  function Payload(g: Given): (v: Value) {
    match g
    case Bare(v) => v
    case Wrapped(e) => e.data
  }

  /** The entry doAddSet builds: stamps brought by the caller are thrown away. */
  function Stamp(g: Given, exp: int64, defaultExp: int64, now: int): (e: Entry) {
    Entry(Payload(g), Unix(now), ExpiryFor(exp, defaultExp, now))
  }

  lemma ExpiryIsForGood(e: Entry, t: int, t': int)
    requires Expired(e, t) && t <= t'
    ensures Expired(e, t')
  {
  }

  /** No overflow, and not so close to the epoch that the expiry second could be 0 (never). */
  predicate InRange(w: int, d: int64) {
    d > 0 && SECOND <= w && w / SECOND + d / SECOND < TWO_63
  }

  /**
   * Exactly when an entry written at w with duration d > 0, given or by default, is expired: both truncations
   * show up as the parts of w and d below one second.
   */
  lemma ExpiryInstant(g: Given, w: int, d: int64, other: int64, t: int)
    requires InRange(w, d)
    ensures Expired(Stamp(g, d, other, w), t) <==> t > w + d - w % SECOND - d % SECOND
    ensures Expired(Stamp(g, 0, d, w), t) <==> t > w + d - w % SECOND - d % SECOND
  {
  }

  /** The duration that counts: the one given, or the default for 0. */
  function Lasting(exp: int64, defaultExp: int64): (d: int64) {
    if exp == 0 then defaultExp else exp
  }

  /**
   * Durations of either sign, short of overflow: parts of a second count for nothing, an end at the epoch means
   * "never", and so does FOREVER, but only when it is given.  As the default it is a negative duration like any
   * other: the entry expires within its second.
   */
  lemma ExpiryOfAnySign(g: Given, w: int, exp: int64, def: int64, t: int)
    requires SECOND <= w && w / SECOND < TWO_63 && w / SECOND + Lasting(exp, def) / SECOND < TWO_63
    ensures var d: int := Lasting(exp, def);
            var end := w - w % SECOND + if d >= 0 then d - d % SECOND else d + (-d) % SECOND;
            Expired(Stamp(g, exp, def, w), t) <==> exp != FOREVER && end != 0 && t > end
    ensures exp == 0 && def == FOREVER ==> (Expired(Stamp(g, exp, def, w), t) <==> t > w - w % SECOND)
  {
  }

  /** The promise a caller can rely on despite both truncations; FOREVER really is for ever. */
  lemma LifetimeBound(g: Given, w: int, d: int64, def: int64, t: int)
    requires InRange(w, d)
    ensures t > w + d ==> Expired(Stamp(g, d, def, w), t)
    ensures t <= w + d - 2 * SECOND ==> !Expired(Stamp(g, d, def, w), t)
    ensures d % SECOND == 0 && t <= w + d - SECOND ==> !Expired(Stamp(g, d, def, w), t)
    ensures !Expired(Stamp(g, FOREVER, def, w), t)
    ensures var added := Stamp(g, d, def, w).timeAdded; added * SECOND <= w < (added + 1) * SECOND
  {
  }
}
