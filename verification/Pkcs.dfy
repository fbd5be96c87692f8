/** The padding of pkcs.go, for every block size: section 6.3 of RFC 5652 when the size is at most 255. */
module Pkcs {
  import opened Entries
  import opened GoNumbers

  /** byte(n): the low eight bits. */
  function ByteOf(n: nat): (b: byte) {
    n % 256
  }

  function Repeat(b: byte, n: nat): (s: Bytes)
    ensures |s| == n && forall i :: 0 <= i < n ==> s[i] == b
  {
    seq(n, _ => b)
  }

  function PadLen(src: Bytes, blockSize: nat): (n: nat)
    requires blockSize > 0
    ensures 1 <= n <= blockSize
  {
    blockSize - |src| % blockSize
  }

  function Padding(src: Bytes, blockSize: nat): (r: Bytes)
    requires blockSize > 0
  {
    src + Repeat(ByteOf(PadLen(src, blockSize)), PadLen(src, blockSize))
  }

  /** Reading the last byte of an empty input is an index panic. */
  function Unpadding(src: Bytes, blockSize: nat): (r: Outcome<Bytes>) {
    if |src| == 0 then Panic
    else
      var paddingLen := src[|src| - 1];
      if paddingLen >= |src| || paddingLen > blockSize then Failure(PaddingSize)
      else Success(src[..|src| - paddingLen])
  }

  /**
   * A whole number of blocks, longer than the input by one to blockSize bytes, the input in front; each byte added
   * is the low byte of how many were added.
   */
  lemma PaddedShape(src: Bytes, blockSize: nat)
    requires blockSize > 0
    ensures var p := Padding(src, blockSize);
            && |p| % blockSize == 0
            && |src| < |p| <= |src| + blockSize
            && src == p[..|src|]
            && forall i :: |src| <= i < |p| ==> p[i] == (|p| - |src|) % 256
  {
    RoundUpToMultiple(|src|, blockSize);
  }

  /** Unpadding inverts Padding exactly on non-empty inputs whose pad length fits a byte. */
  lemma UnpaddingInvertsIff(src: Bytes, blockSize: nat)
    requires blockSize > 0
    ensures Unpadding(Padding(src, blockSize), blockSize) == Success(src)
            <==> |src| > 0 && PadLen(src, blockSize) <= 255
    ensures |src| == 0 && blockSize <= 255 ==> Unpadding(Padding(src, blockSize), blockSize) == Failure(PaddingSize)
  {
  }

  /**
   * Unpadding succeeds with u exactly if u is a non-empty prefix, shorter by at most one block, and the last byte
   * says by how much; the other bytes dropped are not looked at.  Otherwise it is the padding error, and on nothing
   * at all a panic.
   */
  lemma UnpaddingShape(src: Bytes, blockSize: nat, u: Bytes)
    ensures Unpadding(src, blockSize) == Success(u) <==>
              0 < |u| <= |src| <= |u| + blockSize && u == src[..|u|] && src[|src| - 1] == |src| - |u|
    ensures Unpadding(src, blockSize).Panic? <==> src == []
    ensures Unpadding(src, blockSize).Failure? ==> Unpadding(src, blockSize).error == PaddingSize
  {
  }

  lemma SameTail(s: Bytes, t: Bytes, m: nat, n: nat)
    requires 1 <= m <= 256 && 1 <= n <= 256
    requires s + Repeat(ByteOf(m), m) == t + Repeat(ByteOf(n), n)
    ensures s == t
  {
    var p := s + Repeat(ByteOf(m), m);
    assert p[|p| - 1] == ByteOf(m) && (t + Repeat(ByteOf(n), n))[|p| - 1] == ByteOf(n);
    assert m == n;
    assert s == p[..|p| - m] && t == p[..|p| - n];
  }

  /** Distinct inputs stay distinct, the empty one included, exactly while pad lengths differ as bytes. */
  lemma PaddingInjective(s: Bytes, t: Bytes, blockSize: nat)
    requires 0 < blockSize <= 256 && Padding(s, blockSize) == Padding(t, blockSize)
    ensures s == t
  {
    SameTail(s, t, PadLen(s, blockSize), PadLen(t, blockSize));
  }

  lemma PaddingCollidesBeyond256(blockSize: nat)
    requires blockSize > 256
    ensures var s := Repeat(1, blockSize - 257);
            var t := Repeat(1, blockSize - 1);
            s != t && Padding(s, blockSize) == Padding(t, blockSize)
  {
    var s, t := Repeat(1, blockSize - 257), Repeat(1, blockSize - 1);
    SmallRest(|s|, blockSize);
    SmallRest(|t|, blockSize);
    assert PadLen(s, blockSize) == 257 && PadLen(t, blockSize) == 1;
    assert Padding(s, blockSize) == Repeat(1, blockSize) == Padding(t, blockSize);
  }
}
