/** Go's 64-bit integers, written out over Dafny's unbounded ones. */
module GoNumbers {

  const TWO_63: int := 0x8000_0000_0000_0000
  const TWO_64: int := 0x1_0000_0000_0000_0000

  type int64 = x: int | -0x8000_0000_0000_0000 <= x < 0x8000_0000_0000_0000
  type uint64 = x: int | 0 <= x < 0x1_0000_0000_0000_0000

  /** time.Second, in nanoseconds. */
  const SECOND: int64 := 1_000_000_000

  /** Two's-complement wrap-around: the only int64 congruent to x modulo 2^64. */
  function Wrap64(x: int): (r: int64)
    ensures -TWO_63 <= x < TWO_63 ==> r == x
    ensures (x - r) % TWO_64 == 0
  {
    (x + TWO_63) % TWO_64 - TWO_63
  }

  /** Reinterpretation of a signed word as an unsigned one. */
  function AsUint64(x: int64): (r: uint64)
    ensures Wrap64(r) == x
  {
    if x < 0 then x + TWO_64 else x
  }

  /** Go's integer division: toward zero. */
  function TruncDiv(a: int, b: int): (q: int)
    requires b > 0
    ensures (a >= 0 ==> 0 <= q && q * b <= a < (q + 1) * b) && (a <= 0 ==> q <= 0 && (q - 1) * b < a <= q * b)
  {
    if a >= 0 then a / b else -((-a) / b)
  }

  lemma WrapAbsorbs(a: int, b: int)
    ensures Wrap64(Wrap64(a) + b) == Wrap64(a + b)
  {
  }

  lemma AtLeastOnce(b: int, k: int)
    requires b > 0 && k >= 1
    ensures b * k >= b
  {
  }

  lemma QuotientUnique(b: int, q: int, d: int, r: int)
    requires b > 0 && 0 <= r < b && b * q == b * d + r
    ensures q == d && r == 0
  {
    if d < q {
      AtLeastOnce(b, q - d);
    } else if q < d {
      AtLeastOnce(b, d - q);
    }
  }

  lemma MultipleHasNoRest(b: int, q: int)
    requires b > 0
    ensures (b * q) % b == 0
  {
    QuotientUnique(b, q, (b * q) / b, (b * q) % b);
  }

  lemma RoundUpToMultiple(x: int, b: int)
    requires b > 0
    ensures (x + (b - x % b)) % b == 0
  {
    MultipleHasNoRest(b, x / b + 1);
    assert b * (x / b + 1) == b * (x / b) + b;
  }

  lemma ParityCancels(x: int, y: int, h: int)
    ensures var z := 2 * h + (x + y) % 2; z / 2 == h && (z + y) % 2 == x % 2
  {
  }

  lemma ParityOfSum(x: int, y: int)
    ensures (x + y) % 2 == if x % 2 == y % 2 then 0 else 1
  {
  }

  lemma SmallRest(x: int, b: int)
    requires 0 <= x < b
    ensures x % b == x
  {
  }
}
