/** The counter arithmetic of Increment and Decrement (inmemory.go), 64-bit words included. */
module Counters {
  import opened GoNumbers

  datatype CounterOp = Inc(n: uint64) | Dec(n: uint64)

  /** One counter operation on the stored int; Go converts n to int before it is used. */
  function Count(v: int64, c: CounterOp): (r: int64) {
    match c
    case Inc(n) => Wrap64(v + Wrap64(n))
    case Dec(n) => if Wrap64(n) > v then 0 else Wrap64(v - Wrap64(n))
  }

  /** A whole sequence of counter operations, oldest first. */
  function Fold(v: int64, cs: seq<CounterOp>): (r: int64) {
    if |cs| == 0 then v else Count(Fold(v, cs[..|cs| - 1]), cs[|cs| - 1])
  }

  function Total(cs: seq<CounterOp>): nat {
    if |cs| == 0 then 0 else Total(cs[..|cs| - 1]) + cs[|cs| - 1].n
  }

  function Max(a: int, b: int): int {
    if a >= b then a else b
  }

  lemma IncrementAdds(total: int, n: uint64)
    ensures Count(Wrap64(total), Inc(n)) == Wrap64(total + n)
  {
    WrapAbsorbs(total, Wrap64(n));
    WrapAbsorbs(n, total);
  }

  /** Any sequence of Increments adds its sum modulo 2^64. */
  lemma {:induction false} IncrementsAddUp(v: int64, cs: seq<CounterOp>)
    requires forall c <- cs :: c.Inc?
    ensures Fold(v, cs) == Wrap64(v + Total(cs))
  {
    if |cs| > 0 {
      var front, n := cs[..|cs| - 1], cs[|cs| - 1].n;
      IncrementsAddUp(v, front);
      assert cs[|cs| - 1] in cs;
      IncrementAdds(v + Total(front), n);
    }
  }

  /** Any sequence of Decrements below 2^63 subtracts its sum and stops at zero; below zero the first one ends there. */
  lemma {:induction false} DecrementsSaturate(v: int64, cs: seq<CounterOp>)
    requires v >= 0 || |cs| > 0
    requires forall c <- cs :: c.Dec? && c.n < TWO_63
    ensures Fold(v, cs) == Max(0, v - Total(cs))
  {
    if |cs| > 0 {
      assert cs[|cs| - 1] in cs;
      if v >= 0 || |cs| > 1 {
        DecrementsSaturate(v, cs[..|cs| - 1]);
      }
    }
  }

  /**
   * The bound on the amount is exact: from 2^63 on, Decrement adds what is missing to 2^64 instead of subtracting,
   * except to values so far below zero that it ends at zero all the same.
   */
  lemma DecrementIsSaturatingIff(v: int64, n: uint64)
    ensures Count(v, Dec(n)) == Max(0, v - n) <==> n < TWO_63 || v <= n - TWO_64
    ensures n >= TWO_63 && v > n - TWO_64 ==> Count(v, Dec(n)) == Wrap64(v + (TWO_64 - n))
  {
  }

  /** Two values go up to the same value if and only if they are the same. */
  lemma IncrementFromIff(read: int64, current: int64, n: uint64)
    ensures Count(read, Inc(n)) == Wrap64(current + n) <==> read == current
  {
    WrapAbsorbs(n, read);
    WrapAbsorbs(n, current);
  }

  /** Two values go down to the same value if and only if they are the same or both are cut off at zero. */
  lemma DecrementFromIff(read: int64, current: int64, n: uint64)
    ensures Count(read, Dec(n)) == Count(current, Dec(n))
            <==> read == current || (read <= Wrap64(n) && current <= Wrap64(n))
  {
  }

  /** Decrement undoes Increment by the same amount, unless the sum alone overflowed. */
  lemma DecrementUndoesIncrementIff(v: int64, n: uint64)
    requires v >= 0
    ensures Fold(v, [Inc(n), Dec(n)]) == v <==> v + n < TWO_63 || n >= TWO_63
  {
    assert [Inc(n), Dec(n)][..1] == [Inc(n)];
    assert [Inc(n)][..0] == [];
    assert Fold(v, []) == v;
    assert Fold(v, [Inc(n)]) == Count(v, Inc(n));
    assert Fold(v, [Inc(n), Dec(n)]) == Count(Count(v, Inc(n)), Dec(n));
    if n >= TWO_63 {
      assert Wrap64(n) == n - TWO_64;
    } else {
      assert Wrap64(n) == n;
    }
  }
}
