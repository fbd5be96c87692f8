/**
 * Entry encryption (generic.go): key derivation, CBC (section 6.2 of NIST SP 800-38A) and the padded round
 * trip, over any invertible block cipher.
 */
module Crypto {
  import opened Entries
  import opened GoNumbers
  import opened Pkcs

  const BLOCK: nat := 16

  /** A block cipher: key, then one block in and one block out. */
  datatype Cipher = Cipher(seal: (Bytes, Bytes) -> Bytes, open: (Bytes, Bytes) -> Bytes)
  {
    ghost predicate Invertible() {
      && (forall key: Bytes, b: Bytes :: |key| == BLOCK && |b| == BLOCK ==>
            |seal(key, b)| == BLOCK && open(key, seal(key, b)) == b)
      && (forall key: Bytes, b: Bytes :: |key| == BLOCK && |b| == BLOCK ==> |open(key, b)| == BLOCK)
    }
  }

  // ----- Key derivation -----

  function Reversed(s: Bytes): (r: Bytes)
    ensures |r| == |s| && forall i :: 0 <= i < |s| ==> r[i] == s[|s| - 1 - i]
  {
    seq(|s|, i requires 0 <= i < |s| => s[|s| - 1 - i])
  }

  /** The key, which is also the initialisation vector: the first 16 bytes of the secret, back to front. */
  function KeyOf(secret: Bytes): (key: Bytes)
    requires |secret| >= BLOCK
    ensures |key| == BLOCK
  {
    Reversed(secret[..BLOCK])
  }

  /**
   * The swap loop of keyAndIV.  Key and IV are two slices of one copy of the secret, so reversing the IV in
   * place reverses the key as well; the copy is fresh and the caller's secret is not written.
   */
  method KeyAndIV(secret: array<byte>) returns (ok: bool, key: array<byte>, iv: array<byte>)
    ensures ok <==> secret.Length >= BLOCK
    ensures fresh(key) && key == iv
    ensures ok ==> key.Length == secret.Length && key[..BLOCK] == iv[..BLOCK] == KeyOf(secret[..])
    ensures ok ==> forall i :: 0 <= i < BLOCK ==> key[i] == iv[i] == secret[BLOCK - 1 - i]
  {
    var tmp := CopyOf(secret);
    key, iv := tmp, tmp;
    if secret.Length < BLOCK {
      return false, key, iv;
    }
    ok := true;
    ghost var given := secret[..];
    var i := BLOCK / 2 - 1;
    while i >= 0
      invariant -1 <= i < BLOCK / 2
      invariant forall j :: i < j < BLOCK - 1 - i ==> iv[j] == given[BLOCK - 1 - j]
      invariant forall j :: 0 <= j < BLOCK && !(i < j < BLOCK - 1 - i) ==> iv[j] == given[j]
    {
      var opp := BLOCK - 1 - i;
      iv[i], iv[opp] := iv[opp], iv[i];
      i := i - 1;
    }
    assert iv[..BLOCK] == KeyOf(given);
  }

  method CopyOf(a: array<byte>) returns (b: array<byte>)
    ensures fresh(b) && b[..] == a[..]
  {
    b := new byte[a.Length];
    forall i | 0 <= i < a.Length {
      b[i] := a[i];
    }
  }

  // ----- Cipher block chaining -----

  /** Exclusive or of the low n bits. */
  function XorBits(x: nat, y: nat, n: nat): (z: nat) {
    if n == 0 then 0 else 2 * XorBits(x / 2, y / 2, n - 1) + (x + y) % 2
  }

  function Pow2(n: nat): nat {
    if n == 0 then 1 else 2 * Pow2(n - 1)
  }

  lemma {:induction false} XorBitsTwice(x: nat, y: nat, n: nat)
    requires x < Pow2(n)
    ensures XorBits(x, y, n) < Pow2(n) && XorBits(XorBits(x, y, n), y, n) == x
  {
    if n > 0 {
      XorBitsTwice(x / 2, y / 2, n - 1);
      ParityCancels(x, y, XorBits(x / 2, y / 2, n - 1));
    }
  }

  lemma BytePow()
    ensures Pow2(8) == 256
  {
  }

  /** Bit i of a number. */
  function Bit(x: nat, i: nat): (b: nat) {
    if i == 0 then x % 2 else Bit(x / 2, i - 1)
  }

  /** Each bit of an exclusive or says whether the two bits differ. */
  lemma {:induction false} XorBitsAt(x: nat, y: nat, n: nat, i: nat)
    requires i < n
    ensures Bit(XorBits(x, y, n), i) == if Bit(x, i) == Bit(y, i) then 0 else 1
  {
    ParityCancels(x, y, XorBits(x / 2, y / 2, n - 1));
    if i == 0 {
      ParityOfSum(x, y);
    } else {
      XorBitsAt(x / 2, y / 2, n - 1, i - 1);
    }
  }

  function XorByte(x: byte, y: byte): (z: byte) {
    BytePow();
    XorBitsTwice(x, y, 8);
    XorBits(x, y, 8)
  }

  /** Byte by byte and bit by bit: a bit of the result is set exactly where the two differ. */
  lemma {:induction false} XorAt(a: Bytes, b: Bytes, n: nat, i: nat)
    requires n < |a| == |b| && i < 8
    ensures Bit(Xor(a, b)[n], i) == if Bit(a[n], i) == Bit(b[n], i) then 0 else 1
  {
    XorBitsAt(a[n], b[n], 8, i);
  }

  function Xor(a: Bytes, b: Bytes): (c: Bytes)
    requires |a| == |b|
    ensures |c| == |a|
  {
    seq(|a|, i requires 0 <= i < |a| => XorByte(a[i], b[i]))
  }

  lemma {:induction false} XorTwice(a: Bytes, b: Bytes)
    requires |a| == |b|
    ensures Xor(Xor(a, b), b) == a
  {
    forall i | 0 <= i < |a| ensures XorByte(XorByte(a[i], b[i]), b[i]) == a[i] {
      BytePow();
      XorBitsTwice(a[i], b[i], 8);
    }
  }

  predicate Blocks(s: Bytes) {
    |s| % 16 == 0
  }

  /** The block the next one is chained to: the last ciphertext block, or the IV at the start. */
  function Previous(ct: Bytes, iv: Bytes): (b: Bytes)
    requires |iv| == BLOCK && Blocks(ct)
    ensures |b| == BLOCK
  {
    if |ct| == 0 then iv else ct[|ct| - BLOCK..]
  }

  /** One more block: chained to the ciphertext so far, then sealed. */
  function SealNext(c: Cipher, key: Bytes, iv: Bytes, ct: Bytes, b: Bytes): (ct': Bytes)
    requires c.Invertible() && |key| == |iv| == |b| == BLOCK && Blocks(ct)
    ensures |ct'| == |ct| + BLOCK
  {
    ct + c.seal(key, Xor(b, Previous(ct, iv)))
  }

  function CbcEncrypt(c: Cipher, key: Bytes, iv: Bytes, data: Bytes): (ct: Bytes)
    requires c.Invertible() && |key| == |iv| == BLOCK && Blocks(data)
    ensures |ct| == |data|
  {
    if |data| == 0 then []
    else
      SealNext(c, key, iv, CbcEncrypt(c, key, iv, data[..|data| - BLOCK]), data[|data| - BLOCK..])
  }

  function CbcDecrypt(c: Cipher, key: Bytes, iv: Bytes, ct: Bytes): (data: Bytes)
    requires c.Invertible() && |key| == |iv| == BLOCK && Blocks(ct)
    ensures |data| == |ct|
  {
    if |ct| == 0 then []
    else
      var front := ct[..|ct| - BLOCK];
      CbcDecrypt(c, key, iv, front) + Xor(c.open(key, ct[|ct| - BLOCK..]), Previous(front, iv))
  }

  /** CBC decryption undoes CBC encryption, block by block. */
  lemma {:induction false} CbcRoundTrip(c: Cipher, key: Bytes, iv: Bytes, data: Bytes)
    requires c.Invertible() && |key| == |iv| == BLOCK && Blocks(data)
    ensures CbcDecrypt(c, key, iv, CbcEncrypt(c, key, iv, data)) == data
  {
    if |data| > 0 {
      var n := |data| - BLOCK;
      CbcRoundTrip(c, key, iv, data[..n]);
      var front := CbcEncrypt(c, key, iv, data[..n]);
      var ct := CbcEncrypt(c, key, iv, data);
      assert ct[..n] == front;
      XorTwice(data[n..], Previous(front, iv));
      assert data == data[..n] + data[n..];
    }
  }

  // ----- Chaining, told by position -----

  /** The block at position n. */
  function BlockAt(s: Bytes, n: nat): (b: Bytes)
    requires n + BLOCK <= |s|
    ensures |b| == BLOCK
  {
    s[n..n + BLOCK]
  }

  /** x is the sealed block b, chained to the block before. */
  predicate SealedOver(c: Cipher, key: Bytes, x: Bytes, b: Bytes, before: Bytes)
    requires |b| == |before|
  {
    x == c.seal(key, Xor(b, before))
  }

  /** The block at n is sealed over the ciphertext block before it, the first one over the IV. */
  predicate ChainedAt(c: Cipher, key: Bytes, iv: Bytes, data: Bytes, ct: Bytes, n: nat)
    requires |iv| == BLOCK && n % 16 == 0 && n + BLOCK <= |data| == |ct|
  {
    SealedOver(c, key, BlockAt(ct, n), BlockAt(data, n), if n == 0 then iv else BlockAt(ct, n - BLOCK))
  }

  /** CBC as the standard has it. */
  ghost predicate Chained(c: Cipher, key: Bytes, iv: Bytes, data: Bytes, ct: Bytes)
    requires |iv| == BLOCK
  {
    |ct| == |data| && forall n: nat :: n % 16 == 0 && n + BLOCK <= |data| ==> ChainedAt(c, key, iv, data, ct, n)
  }

  lemma {:induction false} ChainedEarlier(c: Cipher, key: Bytes, iv: Bytes, data: Bytes, ct: Bytes, n: nat, len: nat)
    requires |iv| == BLOCK && n % 16 == 0 && n + BLOCK <= len <= |data| == |ct|
    ensures ChainedAt(c, key, iv, data, ct, n) <==> ChainedAt(c, key, iv, data[..len], ct[..len], n)
  {
    BlockOfPrefix(ct, n, len);
    BlockOfPrefix(data, n, len);
    if n > 0 {
      BlockOfPrefix(ct, n - BLOCK, len);
    }
  }

  lemma BlockOfPrefix(s: Bytes, n: nat, len: nat)
    requires n + BLOCK <= len <= |s|
    ensures BlockAt(s[..len], n) == BlockAt(s, n)
  {
  }

  lemma PreviousAt(iv: Bytes, ct: Bytes, n: nat)
    requires |iv| == BLOCK && n % 16 == 0 && n <= |ct|
    ensures Previous(ct[..n], iv) == if n == 0 then iv else BlockAt(ct, n - BLOCK)
  {
  }

  lemma SameEnd(s: Bytes, n: nat, end: Bytes)
    requires n <= |s|
    ensures s == s[..n] + end <==> s[n..] == end
  {
    assert s == s[..n] + s[n..];
    assert (s[..n] + end)[n..] == end;
  }

  lemma {:induction false} SealNextIff(c: Cipher, key: Bytes, iv: Bytes, ct: Bytes, b: Bytes, n: nat)
    requires c.Invertible() && |key| == |iv| == |b| == BLOCK && n % 16 == 0 && n <= |ct|
    ensures ct == SealNext(c, key, iv, ct[..n], b) <==> SealedOver(c, key, ct[n..], b, Previous(ct[..n], iv))
  {
    SameEnd(ct, n, c.seal(key, Xor(b, Previous(ct[..n], iv))));
  }

  lemma {:induction false} ChainedLast(c: Cipher, key: Bytes, iv: Bytes, data: Bytes, ct: Bytes, n: nat)
    requires c.Invertible() && |key| == |iv| == BLOCK && n % 16 == 0 && n + BLOCK == |data| == |ct|
    ensures ChainedAt(c, key, iv, data, ct, n) <==> ct == SealNext(c, key, iv, ct[..n], data[n..])
  {
    assert BlockAt(data, n) == data[n..] && BlockAt(ct, n) == ct[n..];
    PreviousAt(iv, ct, n);
    SealNextIff(c, key, iv, ct, data[n..], n);
  }

  lemma LastBlock(n: nat, len: nat)
    requires n % 16 == 0 && len % 16 == 0 && n + BLOCK <= len
    ensures n == len - BLOCK || n + BLOCK <= len - BLOCK
  {
  }

  /** All blocks are chained if all but the last are, and the last one is. */
  lemma {:induction false} ChainedSplits(c: Cipher, key: Bytes, iv: Bytes, data: Bytes, ct: Bytes, last: nat)
    requires |iv| == BLOCK && last % 16 == 0 && last + BLOCK == |data| == |ct|
    ensures Chained(c, key, iv, data, ct) <==>
              Chained(c, key, iv, data[..last], ct[..last]) && ChainedAt(c, key, iv, data, ct, last)
  {
    forall n: nat | n % 16 == 0 && n + BLOCK <= last
      ensures ChainedAt(c, key, iv, data, ct, n) <==> ChainedAt(c, key, iv, data[..last], ct[..last], n)
    {
      ChainedEarlier(c, key, iv, data, ct, n, last);
    }
    forall n: nat | n % 16 == 0 && n + BLOCK <= |data| ensures n == last || n + BLOCK <= last {
      LastBlock(n, |data|);
    }
  }

  /** Of whole blocks, the encryption is the one byte sequence that is chained like that. */
  lemma {:induction false} CbcIsChainedIff(c: Cipher, key: Bytes, iv: Bytes, data: Bytes, ct: Bytes)
    requires c.Invertible() && |key| == |iv| == BLOCK && Blocks(data)
    ensures ct == CbcEncrypt(c, key, iv, data) <==> Chained(c, key, iv, data, ct)
  {
    if |ct| == |data| > 0 {
      var last := |data| - BLOCK;
      CbcIsChainedIff(c, key, iv, data[..last], ct[..last]);
      ChainedSplits(c, key, iv, data, ct, last);
      ChainedLast(c, key, iv, data, ct, last);
      EncryptAppends(c, key, iv, data[..last], data[last..]);
      assert data == data[..last] + data[last..];
    }
  }

  // ----- Entries -----

  /** encryptEntry with EncryptData set. */
  function EncryptEntry(c: Cipher, secret: Bytes, data: Bytes): (r: Outcome<Bytes>)
    requires c.Invertible()
  {
    PaddedShape(data, BLOCK);
    if |secret| < BLOCK then Failure(SecretTooShort)
    else Success(CbcEncrypt(c, KeyOf(secret), KeyOf(secret), Padding(data, BLOCK)))
  }

  /** decryptEntry with EncryptData set; CBC panics on a broken block, unpadding on nothing at all. */
  function DecryptEntry(c: Cipher, secret: Bytes, ct: Bytes): (r: Outcome<Bytes>)
    requires c.Invertible()
  {
    if |secret| < BLOCK then Failure(SecretTooShort)
    else if !Blocks(ct) then Panic
    else Unpadding(CbcDecrypt(c, KeyOf(secret), KeyOf(secret), ct), BLOCK)
  }

  /**
   * Decryption with any secret that shares the first 16 bytes returns exactly what was encrypted, unless
   * that was empty: then, and only then, it reports the padding error.
   */
  lemma {:induction false} EntryRoundTrip(c: Cipher, secret: Bytes, secret': Bytes, data: Bytes)
    requires c.Invertible() && |secret| >= BLOCK && |secret'| >= BLOCK && secret[..BLOCK] == secret'[..BLOCK]
    ensures EncryptEntry(c, secret, data).Success?
    ensures DecryptEntry(c, secret', EncryptEntry(c, secret, data).value)
            == if |data| > 0 then Success(data) else Failure(PaddingSize)
  {
    PaddedShape(data, BLOCK);
    CbcRoundTrip(c, KeyOf(secret), KeyOf(secret), Padding(data, BLOCK));
    UnpaddingInvertsIff(data, BLOCK);
  }

  /** The key by position, and the padding by its bytes. */
  predicate IsKey(key: Bytes, secret: Bytes) {
    |key| == BLOCK <= |secret| && forall i :: 0 <= i < BLOCK ==> key[i] == secret[BLOCK - 1 - i]
  }

  predicate IsPadded(padded: Bytes, data: Bytes) {
    && Blocks(padded) && |data| < |padded| <= |data| + BLOCK && data == padded[..|data|]
    && forall i :: |data| <= i < |padded| ==> padded[i] == |padded| - |data|
  }

  lemma SameWholeBlocks(a: nat, b: nat, n: nat)
    requires a % 16 == 0 && b % 16 == 0 && n < a <= n + 16 && n < b <= n + 16
    ensures a == b
  {
  }

  lemma PaddedIsPadding(padded: Bytes, data: Bytes)
    requires IsPadded(padded, data)
    ensures padded == Padding(data, BLOCK)
  {
    PaddedShape(data, BLOCK);
    var p := Padding(data, BLOCK);
    SameWholeBlocks(|padded|, |p|, |data|);
    assert padded == padded[..|data|] + padded[|data|..] && p == p[..|data|] + p[|data|..];
    assert padded[|data|..] == p[|data|..];
  }

  /**
   * What encryptEntry produces, told by positions: the padded data chained under the reversed first 16 bytes of the
   * secret, which also serve as the IV.
   */
  lemma {:induction false} EncryptedIsChained(c: Cipher, secret: Bytes, data: Bytes, key: Bytes, padded: Bytes)
    requires c.Invertible() && IsKey(key, secret) && IsPadded(padded, data)
    ensures EncryptEntry(c, secret, data).Success?
    ensures Chained(c, key, key, padded, EncryptEntry(c, secret, data).value)
  {
    PaddedIsPadding(padded, data);
    assert key == KeyOf(secret);
    CbcIsChainedIff(c, key, key, padded, CbcEncrypt(c, key, key, padded));
  }

  lemma {:induction false} EncryptAppends(c: Cipher, key: Bytes, iv: Bytes, data: Bytes, b: Bytes)
    requires c.Invertible() && |key| == |iv| == |b| == BLOCK && Blocks(data)
    ensures CbcEncrypt(c, key, iv, data + b) == SealNext(c, key, iv, CbcEncrypt(c, key, iv, data), b)
  {
  }

  lemma {:induction false} DecryptAppends(c: Cipher, key: Bytes, iv: Bytes, ct: Bytes, b: Bytes)
    requires c.Invertible() && |key| == |iv| == |b| == BLOCK && Blocks(ct)
    ensures CbcDecrypt(c, key, iv, ct + b) == CbcDecrypt(c, key, iv, ct) + Xor(c.open(key, b), Previous(ct, iv))
  {
  }

  /** The prefix of one more block. */
  lemma OneMoreBlock(src: Bytes, n: nat)
    requires Blocks(src) && n < |src| && n % 16 == 0
    ensures n + BLOCK <= |src| && (n + BLOCK) % 16 == 0
    ensures src[..n + BLOCK] == src[..n] + src[n..n + BLOCK]
  {
  }

  /** CryptBlocks of a CBC encrypter: a new buffer filled block by block. */
  method EncryptBlocks(c: Cipher, key: Bytes, iv: Bytes, src: Bytes) returns (dst: array<byte>)
    requires c.Invertible() && |key| == |iv| == BLOCK && Blocks(src)
    ensures fresh(dst) && dst[..] == CbcEncrypt(c, key, iv, src)
  {
    dst := new byte[|src|];
    var n := 0;
    while n < |src|
      invariant 0 <= n <= |src| && n % 16 == 0
      invariant dst[..n] == CbcEncrypt(c, key, iv, src[..n])
    {
      OneMoreBlock(src, n);
      EncryptAppends(c, key, iv, src[..n], src[n..n + BLOCK]);
      var x := c.seal(key, Xor(src[n..n + BLOCK], Previous(dst[..n], iv)));
      CopyBlock(dst, n, x);
      n := n + BLOCK;
    }
    assert src[..n] == src && dst[..n] == dst[..];
  }

  /** CryptBlocks of a CBC decrypter. */
  method DecryptBlocks(c: Cipher, key: Bytes, iv: Bytes, src: Bytes) returns (dst: array<byte>)
    requires c.Invertible() && |key| == |iv| == BLOCK && Blocks(src)
    ensures fresh(dst) && dst[..] == CbcDecrypt(c, key, iv, src)
  {
    dst := new byte[|src|];
    var n := 0;
    while n < |src|
      invariant 0 <= n <= |src| && n % 16 == 0
      invariant dst[..n] == CbcDecrypt(c, key, iv, src[..n])
    {
      OneMoreBlock(src, n);
      DecryptAppends(c, key, iv, src[..n], src[n..n + BLOCK]);
      var x := Xor(c.open(key, src[n..n + BLOCK]), Previous(src[..n], iv));
      CopyBlock(dst, n, x);
      n := n + BLOCK;
    }
    assert src[..n] == src && dst[..n] == dst[..];
  }

  /** encryptByteArray: the result is a new buffer, data and secret are only read; CBC panics on a broken block. */
  method EncryptByteArray(c: Cipher, data: array<byte>, secret: array<byte>) returns (r: Outcome<array<byte>>)
    requires c.Invertible()
    ensures r == Failure(SecretTooShort) <==> secret.Length < BLOCK
    ensures r.Panic? <==> secret.Length >= BLOCK && !Blocks(data[..])
    ensures r.Success? <==> secret.Length >= BLOCK && Blocks(data[..])
    ensures r.Success? ==>
              && fresh(r.value) && r.value[..] == CbcEncrypt(c, KeyOf(secret[..]), KeyOf(secret[..]), data[..])
              && Chained(c, KeyOf(secret[..]), KeyOf(secret[..]), data[..], r.value[..])
  {
    var good, key, iv := KeyAndIV(secret);
    if !good {
      return Failure(SecretTooShort);
    }
    if data.Length % 16 != 0 {
      return Panic;
    }
    var out := EncryptBlocks(c, key[..BLOCK], iv[..BLOCK], data[..]);
    CbcIsChainedIff(c, KeyOf(secret[..]), KeyOf(secret[..]), data[..], out[..]);
    r := Success(out);
  }

  /** decryptByteArray: likewise, so reading an entry never disturbs the ciphertext it came from. */
  method DecryptByteArray(c: Cipher, data: array<byte>, secret: array<byte>) returns (r: Outcome<array<byte>>)
    requires c.Invertible()
    ensures r == Failure(SecretTooShort) <==> secret.Length < BLOCK
    ensures r.Panic? <==> secret.Length >= BLOCK && !Blocks(data[..])
    ensures r.Success? <==> secret.Length >= BLOCK && Blocks(data[..])
    ensures r.Success? ==>
              fresh(r.value) && r.value[..] == CbcDecrypt(c, KeyOf(secret[..]), KeyOf(secret[..]), data[..])
  {
    var good, key, iv := KeyAndIV(secret);
    if !good {
      return Failure(SecretTooShort);
    }
    if data.Length % 16 != 0 {
      return Panic;
    }
    var out := DecryptBlocks(c, key[..BLOCK], iv[..BLOCK], data[..]);
    r := Success(out);
  }

  method CopyBlock(out: array<byte>, n: nat, x: Bytes)
    requires |x| == BLOCK && n + BLOCK <= out.Length
    modifies out
    ensures out[..n] == old(out[..n]) && out[..n + BLOCK] == old(out[..n]) + x
  {
    forall i | 0 <= i < BLOCK {
      out[n + i] := x[i];
    }
    assert out[n..n + BLOCK] == x;
    assert out[..n + BLOCK] == out[..n] + out[n..n + BLOCK];
  }
}
