/**
 Cipher block chaining (section 6.2 of NIST SP 800-38A) over a block cipher and a hash that are taken as
 given, and the wire format IV || ciphertext.
 */
module AesCbc {
  import opened Wrappers
  import opened Pkcs7

  const BLOCK_SIZE: nat := 16

  type Bytes = seq<byte>

  /** The block cipher under a key, its inverse, and the hash. */
  datatype Primitives = Primitives(enc: (Bytes, Bytes) -> Bytes, dec: (Bytes, Bytes) -> Bytes, sha256: Bytes -> Bytes)

  predicate KeySize(n: nat) { n == 16 || n == 24 || n == 32 }

  /** Under every key of a proper size the cipher permutes the blocks; the hash has 32 bytes. */
  ghost predicate Sound(c: Primitives) {
    && (forall k, b :: KeySize(|k|) && |b| == BLOCK_SIZE ==> |c.enc(k, b)| == BLOCK_SIZE && c.dec(k, c.enc(k, b)) == b)
    && (forall k, b :: KeySize(|k|) && |b| == BLOCK_SIZE ==> |c.dec(k, b)| == BLOCK_SIZE && c.enc(k, c.dec(k, b)) == b)
    && (forall b :: |c.sha256(b)| == 32)
  }

  lemma OneBlock(c: Primitives, k: Bytes, b: Bytes)
    requires Sound(c) && KeySize(|k|) && |b| == BLOCK_SIZE
    ensures |c.enc(k, b)| == BLOCK_SIZE && |c.dec(k, b)| == BLOCK_SIZE
    ensures c.dec(k, c.enc(k, b)) == b && c.enc(k, c.dec(k, b)) == b
  {
  }

  // ---------------------------------------------------------------- exclusive or

  function Pow2(n: nat): (r: nat)
    ensures r > 0
  {
    if n == 0 then 1 else 2 * Pow2(n - 1)
  }

  /** Bit by bit, over n bits. */
  function XorBits(a: nat, b: nat, n: nat): (r: nat)
    ensures r < Pow2(n)
  {
    if n == 0 then 0 else 2 * XorBits(a / 2, b / 2, n - 1) + (a % 2 + b % 2) % 2
  }

  lemma BitTwice(x: nat, y: nat, r: nat)
    requires x < 2 && y < 2
    ensures ((x + y) % 2 + y) % 2 == x
    ensures (2 * r + (x + y) % 2) / 2 == r && (2 * r + (x + y) % 2) % 2 == (x + y) % 2
  {
  }

  lemma {:induction false} XorBitsTwice(a: nat, b: nat, n: nat)
    requires a < Pow2(n)
    ensures XorBits(XorBits(a, b, n), b, n) == a
  {
    if n > 0 {
      BitTwice(a % 2, b % 2, XorBits(a / 2, b / 2, n - 1));
      XorBitsTwice(a / 2, b / 2, n - 1);
    }
  }

  function Xor(a: byte, b: byte): byte {
    assert Pow2(8) == 256;
    XorBits(a, b, 8)
  }

  lemma XorTwice(a: byte, b: byte)
    ensures Xor(Xor(a, b), b) == a
  {
    assert Pow2(8) == 256;
    XorBitsTwice(a, b, 8);
  }

  /** Bit i of a number. */
  function Bit(x: nat, i: nat): nat {
    if i == 0 then x % 2 else Bit(x / 2, i - 1)
  }

  lemma {:induction false} XorBitsAt(a: nat, b: nat, n: nat, i: nat)
    requires i < n
    ensures Bit(XorBits(a, b, n), i) == if Bit(a, i) == Bit(b, i) then 0 else 1
  {
    BitTwice(a % 2, b % 2, XorBits(a / 2, b / 2, n - 1));
    if i > 0 { XorBitsAt(a / 2, b / 2, n - 1, i - 1); }
  }

  lemma {:induction false} XorBitsLaws(a: nat, b: nat, n: nat)
    ensures XorBits(a, b, n) == XorBits(b, a, n) && XorBits(a, a, n) == 0
    ensures a < Pow2(n) ==> XorBits(a, 0, n) == a
  {
    if n > 0 {
      XorBitsLaws(a / 2, b / 2, n - 1);
      BitTwice(a % 2, a % 2, 0);
    }
  }

  /** Exclusive or, bit by bit, and its laws. */
  lemma XorMeans(a: byte, b: byte)
    ensures forall i: nat :: i < 8 ==> Bit(Xor(a, b), i) == if Bit(a, i) == Bit(b, i) then 0 else 1
    ensures Xor(a, 0) == a && Xor(a, a) == 0 && Xor(a, b) == Xor(b, a)
  {
    assert Pow2(8) == 256;
    forall i: nat | i < 8 ensures Bit(Xor(a, b), i) == if Bit(a, i) == Bit(b, i) then 0 else 1 { XorBitsAt(a, b, 8, i); }
    XorBitsLaws(a, b, 8);
  }

  function XorBlock(a: Bytes, b: Bytes): (r: Bytes)
    requires |a| == |b|
    ensures |r| == |a|
  {
    seq(|a|, i requires 0 <= i < |a| => Xor(a[i], b[i]))
  }

  lemma XorBlockTwice(a: Bytes, b: Bytes)
    requires |a| == |b|
    ensures XorBlock(XorBlock(a, b), b) == a
  {
    forall i | 0 <= i < |a| ensures XorBlock(XorBlock(a, b), b)[i] == a[i] { XorTwice(a[i], b[i]); }
  }

  // ---------------------------------------------------------------- chaining

  predicate Aligned(b: Bytes) { |b| % BLOCK_SIZE == 0 }

  /** The block the next one is combined with: the last one before it, or the initial vector. */
  function Previous(iv: Bytes, before: Bytes): (r: Bytes)
    requires |iv| == BLOCK_SIZE && Aligned(before)
    ensures |r| == BLOCK_SIZE
  {
    if before == [] then iv else before[|before| - BLOCK_SIZE..]
  }

  function CbcEncrypt(c: Primitives, k: Bytes, iv: Bytes, p: Bytes): (r: Bytes)
    requires Sound(c) && KeySize(|k|) && |iv| == BLOCK_SIZE && Aligned(p)
    ensures |r| == |p|
    decreases |p|
  {
    if p == [] then []
    else
      var m := |p| - BLOCK_SIZE;
      var before := CbcEncrypt(c, k, iv, p[..m]);
      before + c.enc(k, XorBlock(p[m..], Previous(iv, before)))
  }

  function CbcDecrypt(c: Primitives, k: Bytes, iv: Bytes, ct: Bytes): (r: Bytes)
    requires Sound(c) && KeySize(|k|) && |iv| == BLOCK_SIZE && Aligned(ct)
    ensures |r| == |ct|
    decreases |ct|
  {
    if ct == [] then []
    else
      var m := |ct| - BLOCK_SIZE;
      CbcDecrypt(c, k, iv, ct[..m]) + XorBlock(c.dec(k, ct[m..]), Previous(iv, ct[..m]))
  }

  lemma EncryptOneMore(c: Primitives, k: Bytes, iv: Bytes, p: Bytes, b: Bytes)
    requires Sound(c) && KeySize(|k|) && |iv| == BLOCK_SIZE && Aligned(p) && |b| == BLOCK_SIZE
    ensures Aligned(p + b)
    ensures CbcEncrypt(c, k, iv, p + b)
            == CbcEncrypt(c, k, iv, p) + c.enc(k, XorBlock(b, Previous(iv, CbcEncrypt(c, k, iv, p))))
  {
    assert (p + b)[..|p|] == p && (p + b)[|p|..] == b;
  }

  lemma DecryptOneMore(c: Primitives, k: Bytes, iv: Bytes, ct: Bytes, b: Bytes)
    requires Sound(c) && KeySize(|k|) && |iv| == BLOCK_SIZE && Aligned(ct) && |b| == BLOCK_SIZE
    ensures Aligned(ct + b)
    ensures CbcDecrypt(c, k, iv, ct + b) == CbcDecrypt(c, k, iv, ct) + XorBlock(c.dec(k, b), Previous(iv, ct))
  {
    assert (ct + b)[..|ct|] == ct && (ct + b)[|ct|..] == b;
  }

  lemma CbcEmpty(c: Primitives, k: Bytes, iv: Bytes)
    requires Sound(c) && KeySize(|k|) && |iv| == BLOCK_SIZE
    ensures CbcEncrypt(c, k, iv, []) == [] == CbcDecrypt(c, k, iv, [])
  {
  }

  lemma DecryptEncryptLast(c: Primitives, k: Bytes, iv: Bytes, p: Bytes, b: Bytes)
    requires Sound(c) && KeySize(|k|) && |iv| == BLOCK_SIZE && Aligned(p) && |b| == BLOCK_SIZE
    requires CbcDecrypt(c, k, iv, CbcEncrypt(c, k, iv, p)) == p
    ensures Aligned(p + b) && CbcDecrypt(c, k, iv, CbcEncrypt(c, k, iv, p + b)) == p + b
  {
    var e := CbcEncrypt(c, k, iv, p);
    var x := XorBlock(b, Previous(iv, e));
    OneBlock(c, k, x);
    XorBlockTwice(b, Previous(iv, e));
    EncryptOneMore(c, k, iv, p, b);
    DecryptOneMore(c, k, iv, e, c.enc(k, x));
  }

  lemma EncryptDecryptLast(c: Primitives, k: Bytes, iv: Bytes, ct: Bytes, b: Bytes)
    requires Sound(c) && KeySize(|k|) && |iv| == BLOCK_SIZE && Aligned(ct) && |b| == BLOCK_SIZE
    requires CbcEncrypt(c, k, iv, CbcDecrypt(c, k, iv, ct)) == ct
    ensures Aligned(ct + b) && CbcEncrypt(c, k, iv, CbcDecrypt(c, k, iv, ct + b)) == ct + b
  {
    var d := CbcDecrypt(c, k, iv, ct);
    var x := XorBlock(c.dec(k, b), Previous(iv, ct));
    OneBlock(c, k, b);
    XorBlockTwice(c.dec(k, b), Previous(iv, ct));
    DecryptOneMore(c, k, iv, ct, b);
    EncryptOneMore(c, k, iv, d, x);
  }

  /** Decryption inverts encryption, and encryption decryption: every aligned text is the encryption of something. */
  lemma {:induction false} CbcInverse(c: Primitives, k: Bytes, iv: Bytes, b: Bytes)
    requires Sound(c) && KeySize(|k|) && |iv| == BLOCK_SIZE && Aligned(b)
    ensures CbcDecrypt(c, k, iv, CbcEncrypt(c, k, iv, b)) == b
    ensures CbcEncrypt(c, k, iv, CbcDecrypt(c, k, iv, b)) == b
    decreases |b|
  {
    hide Sound, CbcEncrypt, CbcDecrypt;
    if b == [] {
      CbcEmpty(c, k, iv);
    } else {
      var m := |b| - BLOCK_SIZE;
      CbcInverse(c, k, iv, b[..m]);
      DecryptEncryptLast(c, k, iv, b[..m], b[m..]);
      EncryptDecryptLast(c, k, iv, b[..m], b[m..]);
      assert b == b[..m] + b[m..];
    }
  }

  // ---------------------------------------------------------------- the chaining, block by block

  function BlockAt(b: Bytes, i: nat): Bytes
    requires 16 * i + 16 <= |b|
  {
    b[16 * i..16 * i + 16]
  }

  /** Block i of p, combined with the block of the wire before its own and then enciphered. */
  ghost predicate ChainedAt(c: Primitives, k: Bytes, wire: Bytes, p: Bytes, i: nat) {
    && 16 * i + 16 <= |p| && |wire| == 16 + |p|
    && BlockAt(wire, i + 1) == c.enc(k, XorBlock(BlockAt(p, i), BlockAt(wire, i)))
  }

  /** The wire is the initial vector and then one block for each of p. */
  ghost predicate Chained(c: Primitives, k: Bytes, wire: Bytes, p: Bytes) {
    && |p| % 16 == 0 && |wire| == 16 + |p|
    && forall i: nat :: 16 * i + 16 <= |p| ==> ChainedAt(c, k, wire, p, i)
  }

  /** The other way: the block of the wire is deciphered and then combined with the one before it. */
  ghost predicate UnchainedAt(c: Primitives, k: Bytes, wire: Bytes, p: Bytes, i: nat) {
    && 16 * i + 16 <= |p| && |wire| == 16 + |p| && |c.dec(k, BlockAt(wire, i + 1))| == 16
    && BlockAt(p, i) == XorBlock(c.dec(k, BlockAt(wire, i + 1)), BlockAt(wire, i))
  }

  ghost predicate Unchained(c: Primitives, k: Bytes, wire: Bytes, p: Bytes) {
    && |p| % 16 == 0 && |wire| == 16 + |p|
    && forall i: nat :: 16 * i + 16 <= |p| ==> UnchainedAt(c, k, wire, p, i)
  }

  lemma PreviousIs(iv: Bytes, before: Bytes)
    requires |iv| == BLOCK_SIZE && Aligned(before)
    ensures Previous(iv, before) == BlockAt(iv + before, |before| / 16)
  {
  }

  lemma ChainedOneMore(c: Primitives, k: Bytes, wire: Bytes, p: Bytes, b: Bytes)
    requires Chained(c, k, wire, p) && |b| == 16
    requires |c.enc(k, XorBlock(b, BlockAt(wire, |p| / 16)))| == 16
    ensures Chained(c, k, wire + c.enc(k, XorBlock(b, BlockAt(wire, |p| / 16))), p + b)
  {
    var x := XorBlock(b, BlockAt(wire, |p| / 16));
    var wire', p' := wire + c.enc(k, x), p + b;
    forall i: nat | 16 * i + 16 <= |p'| ensures ChainedAt(c, k, wire', p', i) {
      assert BlockAt(wire', i) == BlockAt(wire, i);
      if 16 * i + 16 <= |p| {
        assert ChainedAt(c, k, wire, p, i);
        assert BlockAt(p', i) == BlockAt(p, i) && BlockAt(wire', i + 1) == BlockAt(wire, i + 1);
      } else {
        assert BlockAt(p', i) == b && BlockAt(wire', i + 1) == c.enc(k, x);
      }
    }
  }

  lemma UnchainedOneMore(c: Primitives, k: Bytes, wire: Bytes, p: Bytes, b: Bytes)
    requires Unchained(c, k, wire, p) && |b| == 16 && |c.dec(k, b)| == 16
    ensures Unchained(c, k, wire + b, p + XorBlock(c.dec(k, b), BlockAt(wire, |p| / 16)))
  {
    var wire', p' := wire + b, p + XorBlock(c.dec(k, b), BlockAt(wire, |p| / 16));
    forall i: nat | 16 * i + 16 <= |p'| ensures UnchainedAt(c, k, wire', p', i) {
      assert BlockAt(wire', i) == BlockAt(wire, i);
      if 16 * i + 16 <= |p| {
        assert UnchainedAt(c, k, wire, p, i);
        assert BlockAt(p', i) == BlockAt(p, i) && BlockAt(wire', i + 1) == BlockAt(wire, i + 1);
      } else {
        assert BlockAt(wire', i + 1) == b && BlockAt(p', i) == XorBlock(c.dec(k, b), BlockAt(wire, i));
      }
    }
  }

  lemma {:induction false} EncryptChains(c: Primitives, k: Bytes, iv: Bytes, p: Bytes)
    requires Sound(c) && KeySize(|k|) && |iv| == BLOCK_SIZE && Aligned(p)
    ensures Chained(c, k, iv + CbcEncrypt(c, k, iv, p), p)
    decreases |p|
  {
    hide Sound, CbcEncrypt, Chained, Previous;
    if p == [] {
      ChainsEmpty(c, k, iv);
    } else {
      var m := |p| - BLOCK_SIZE;
      EncryptChains(c, k, iv, p[..m]);
      var e := CbcEncrypt(c, k, iv, p[..m]);
      EncryptOneMore(c, k, iv, p[..m], p[m..]);
      PreviousIs(iv, e);
      OneBlock(c, k, XorBlock(p[m..], Previous(iv, e)));
      ChainedOneMore(c, k, iv + e, p[..m], p[m..]);
      assert p == p[..m] + p[m..];
      assert iv + (e + c.enc(k, XorBlock(p[m..], Previous(iv, e)))) == iv + e + c.enc(k, XorBlock(p[m..], Previous(iv, e)));
    }
  }

  lemma {:induction false} DecryptUnchains(c: Primitives, k: Bytes, iv: Bytes, ct: Bytes)
    requires Sound(c) && KeySize(|k|) && |iv| == BLOCK_SIZE && Aligned(ct)
    ensures Unchained(c, k, iv + ct, CbcDecrypt(c, k, iv, ct))
    decreases |ct|
  {
    hide Sound, CbcDecrypt, Unchained, Previous;
    if ct == [] {
      ChainsEmpty(c, k, iv);
    } else {
      var m := |ct| - BLOCK_SIZE;
      DecryptUnchains(c, k, iv, ct[..m]);
      var d := CbcDecrypt(c, k, iv, ct[..m]);
      DecryptOneMore(c, k, iv, ct[..m], ct[m..]);
      PreviousIs(iv, ct[..m]);
      OneBlock(c, k, ct[m..]);
      UnchainedOneMore(c, k, iv + ct[..m], d, ct[m..]);
      assert ct == ct[..m] + ct[m..];
      assert iv + (ct[..m] + ct[m..]) == iv + ct[..m] + ct[m..];
    }
  }

  lemma ChainsEmpty(c: Primitives, k: Bytes, iv: Bytes)
    requires Sound(c) && KeySize(|k|) && |iv| == BLOCK_SIZE
    ensures Chained(c, k, iv + CbcEncrypt(c, k, iv, []), []) && Unchained(c, k, iv + [], CbcDecrypt(c, k, iv, []))
  {
  }

  lemma UnchainedUnique(c: Primitives, k: Bytes, wire: Bytes, p: Bytes, q: Bytes)
    requires Unchained(c, k, wire, p) && Unchained(c, k, wire, q)
    ensures p == q
  {
    forall j | 0 <= j < |p| ensures p[j] == q[j] {
      var i := j / 16;
      assert UnchainedAt(c, k, wire, p, i) && UnchainedAt(c, k, wire, q, i);
      assert p[j] == BlockAt(p, i)[j - 16 * i] && q[j] == BlockAt(q, i)[j - 16 * i];
    }
  }

  // ---------------------------------------------------------------- the block modes

  method PutBlock(dst: array<byte>, m: nat, b: Bytes)
    requires m + |b| <= dst.Length
    modifies dst
    ensures dst[..m + |b|] == old(dst[..m]) + b
  {
    forall i | 0 <= i < |b| { dst[m + i] := b[i]; }
  }

  /** `CryptBlocks` of the encrypter: block by block into dst. */
  method EncryptBlocks(c: Primitives, k: Bytes, iv: Bytes, dst: array<byte>, src: array<byte>)
    requires Sound(c) && KeySize(|k|) && |iv| == BLOCK_SIZE && Aligned(src[..])
    requires dst != src && dst.Length == src.Length
    modifies dst
    ensures dst[..] == CbcEncrypt(c, k, iv, src[..])
    ensures Chained(c, k, iv + dst[..], src[..])
  {
    hide CbcEncrypt, Sound, Chained;
    var m := 0;
    assert src[..0] == [] && dst[..0] == [];
    while m < src.Length
      invariant m <= src.Length && m % BLOCK_SIZE == 0
      invariant dst[..m] == CbcEncrypt(c, k, iv, src[..m])
    {
      OneBlock(c, k, XorBlock(src[m..m + BLOCK_SIZE], Previous(iv, dst[..m])));
      var b := c.enc(k, XorBlock(src[m..m + BLOCK_SIZE], Previous(iv, dst[..m])));
      PutBlock(dst, m, b);
      EncryptOneMore(c, k, iv, src[..m], src[m..m + BLOCK_SIZE]);
      assert src[..m] + src[m..m + BLOCK_SIZE] == src[..m + BLOCK_SIZE];
      m := m + BLOCK_SIZE;
    }
    assert src[..m] == src[..] && dst[..m] == dst[..];
    EncryptChains(c, k, iv, src[..]);
  }

  /** `CryptBlocks` of the decrypter. */
  method DecryptBlocks(c: Primitives, k: Bytes, iv: Bytes, dst: array<byte>, src: Bytes)
    requires Sound(c) && KeySize(|k|) && |iv| == BLOCK_SIZE && Aligned(src)
    requires dst.Length == |src|
    modifies dst
    ensures dst[..] == CbcDecrypt(c, k, iv, src)
    ensures Unchained(c, k, iv + src, dst[..])
  {
    hide CbcDecrypt, Sound, Unchained;
    var m := 0;
    assert src[..0] == [] && dst[..0] == [];
    while m < |src|
      invariant m <= |src| && m % BLOCK_SIZE == 0
      invariant dst[..m] == CbcDecrypt(c, k, iv, src[..m])
    {
      OneBlock(c, k, src[m..m + BLOCK_SIZE]);
      var b := XorBlock(c.dec(k, src[m..m + BLOCK_SIZE]), Previous(iv, src[..m]));
      PutBlock(dst, m, b);
      DecryptOneMore(c, k, iv, src[..m], src[m..m + BLOCK_SIZE]);
      assert src[..m] + src[m..m + BLOCK_SIZE] == src[..m + BLOCK_SIZE];
      m := m + BLOCK_SIZE;
    }
    assert src[..m] == src && dst[..m] == dst[..];
    DecryptUnchains(c, k, iv, src);
  }

  // ---------------------------------------------------------------- the wire format

  datatype CryptoError = NoRandomness | ShortWire | NotAligned | BadPad(why: PadError)

  /** A key of any length is made into one of a proper size, so that no key is ever refused. */
  function NormalizeKey(c: Primitives, key: Bytes): (k: Bytes)
    requires Sound(c)
    ensures KeySize(|k|) && (KeySize(|key|) ==> k == key)
  {
    if KeySize(|key|) then key else c.sha256(key)
  }

  lemma PadAligned(p: Bytes)
    ensures Aligned(Pad(p, BLOCK_SIZE))
  {
  }

  /** IV || CBC(PKCS#7(p)). */
  function Seal(c: Primitives, key: Bytes, iv: Bytes, p: Bytes): (wire: Bytes)
    requires Sound(c) && |iv| == BLOCK_SIZE
  {
    PadAligned(p);
    iv + CbcEncrypt(c, NormalizeKey(c, key), iv, Pad(p, BLOCK_SIZE))
  }

  function Open(c: Primitives, key: Bytes, wire: Bytes): (r: Result<Bytes, CryptoError>)
    requires Sound(c)
  {
    if |wire| < BLOCK_SIZE then Err(ShortWire)
    else if !Aligned(wire[BLOCK_SIZE..]) then Err(NotAligned)
    else
      match Unpad(CbcDecrypt(c, NormalizeKey(c, key), wire[..BLOCK_SIZE], wire[BLOCK_SIZE..]), BLOCK_SIZE)
      case Ok(p) => Ok(p)
      case Err(why) => Err(BadPad(why))
  }

  /** Opening is the exact partial inverse of sealing: it succeeds on sealed wires and on nothing else. */
  lemma OpenExact(c: Primitives, key: Bytes, wire: Bytes, p: Bytes)
    requires Sound(c)
    ensures Open(c, key, wire) == Ok(p) <==> |wire| >= BLOCK_SIZE && wire == Seal(c, key, wire[..BLOCK_SIZE], p)
  {
    if |wire| >= BLOCK_SIZE {
      var iv, ct, k := wire[..BLOCK_SIZE], wire[BLOCK_SIZE..], NormalizeKey(c, key);
      assert wire == iv + ct;
      PadAligned(p);
      CbcInverse(c, k, iv, Pad(p, BLOCK_SIZE));
      if Aligned(ct) {
        CbcInverse(c, k, iv, ct);
        UnpadExact(CbcDecrypt(c, k, iv, ct), p, BLOCK_SIZE);
      }
      if wire == Seal(c, key, iv, p) { assert wire[BLOCK_SIZE..] == CbcEncrypt(c, k, iv, Pad(p, BLOCK_SIZE)); }
    }
  }

  /** `iv` is what the random source gave, None if it failed. */
  method Encrypt(c: Primitives, key: Bytes, iv: Option<Bytes>, plaintext: array<byte>)
    returns (r: Result<Bytes, CryptoError>)
    requires Sound(c) && (iv.Some? ==> |iv.value| == BLOCK_SIZE)
    ensures r == if iv.Some? then Ok(Seal(c, key, iv.value, plaintext[..])) else Err(NoRandomness)
    ensures r.Ok? ==>
              var k := if |key| == 16 || |key| == 24 || |key| == 32 then key else c.sha256(key);
              && |r.value| >= 16 && r.value[..16] == iv.value
              && exists padded :: PaddedTo(plaintext[..], padded, 16) && Chained(c, k, r.value, padded)
  {
    hide Chained;
    var k := NormalizeKey(c, key);
    if iv == None { return Err(NoRandomness); }
    var padded := PadPKCS7(plaintext, BLOCK_SIZE);
    PadAligned(plaintext[..]);
    var ct := new byte[padded.Length];
    EncryptBlocks(c, k, iv.value, ct, padded);
    assert PaddedTo(plaintext[..], padded[..], 16) && Chained(c, k, iv.value + ct[..], padded[..]);
    return Ok(iv.value + ct[..]);
  }

  lemma Opened(c: Primitives, k: Bytes, wire: Bytes, plain: Bytes, r: Result<Bytes, PadError>)
    requires Unchained(c, k, wire, plain) && r == Unpad(plain, 16)
    ensures r.Ok? ==> PaddedTo(r.value, plain, 16)
    ensures forall p, padded :: PaddedTo(p, padded, 16) && Unchained(c, k, wire, padded) ==> r == Ok(p)
  {
    hide Unchained, PaddedTo, Pad, Unpad;
    if r.Ok? {
      UnpadExact(plain, r.value, 16);
      PadIs(r.value, plain, 16);
    }
    forall p, padded | PaddedTo(p, padded, 16) && Unchained(c, k, wire, padded) ensures r == Ok(p) {
      UnchainedUnique(c, k, wire, plain, padded);
      PadIs(p, plain, 16);
      UnpadExact(plain, p, 16);
    }
  }

  lemma UnchainedLength(c: Primitives, k: Bytes, wire: Bytes)
    requires |wire| < 16 || |wire| % 16 != 0
    ensures forall p :: !Unchained(c, k, wire, p)
  {
  }

  method Decrypt(c: Primitives, key: Bytes, wire: Bytes) returns (r: Result<Bytes, CryptoError>)
    requires Sound(c)
    ensures r == Open(c, key, wire)
    ensures r == Err(ShortWire) <==> |wire| < 16
    ensures r == Err(NotAligned) <==> |wire| >= 16 && |wire| % 16 != 0
    ensures var k := if |key| == 16 || |key| == 24 || |key| == 32 then key else c.sha256(key);
            && (r.Ok? ==> exists padded :: PaddedTo(r.value, padded, 16) && Unchained(c, k, wire, padded))
            && (forall p, padded :: PaddedTo(p, padded, 16) && Unchained(c, k, wire, padded) ==> r == Ok(p))
  {
    hide Sound, Unchained, PaddedTo, CbcDecrypt, Unpad;
    var k := NormalizeKey(c, key);
    if |wire| < BLOCK_SIZE {
      UnchainedLength(c, k, wire);
      return Err(ShortWire);
    }
    if (|wire| - BLOCK_SIZE) % BLOCK_SIZE != 0 {
      UnchainedLength(c, k, wire);
      return Err(NotAligned);
    }
    var iv, ct := wire[..BLOCK_SIZE], wire[BLOCK_SIZE..];
    var plain := new byte[|ct|];
    DecryptBlocks(c, k, iv, plain, ct);
    var p := UnpadPKCS7(plain, BLOCK_SIZE);
    r := match p case Ok(b) => Ok(b) case Err(why) => Err(BadPad(why));
    assert wire == iv + ct;
    Opened(c, k, wire, plain[..], p);
  }
}
