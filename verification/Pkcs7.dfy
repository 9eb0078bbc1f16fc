/** PKCS#7 padding (section 6.3 of RFC 5652). */
module Pkcs7 {
  import opened Division
  import opened Wrappers

  type byte = x: int | 0 <= x < 256

  datatype PadError = BadLength | BadLastByte | BadPadding

  /** The conversion to a byte keeps the low eight bits. */
  function LowByte(n: nat): byte { n % 256 }

  function PadLength(n: nat, block: nat): (r: nat)
    requires block > 0
    ensures 1 <= r <= block && (n + r) % block == 0
  {
    PadFills(n, block);
    block - n % block
  }

  lemma PadFills(n: nat, block: nat)
    requires block > 0
    ensures n % block < block && (n + (block - n % block)) % block == 0
  {
    var q := n / block;
    assert n == block * q + n % block;
    assert n + (block - n % block) == block * (q + 1);
    DivUnique(block, q + 1, 0);
  }

  function Repeat(x: byte, n: nat): seq<byte> { seq(n, i => x) }

  function Pad(p: seq<byte>, block: nat): (r: seq<byte>)
    requires block > 0
  {
    p + Repeat(LowByte(PadLength(|p|, block)), PadLength(|p|, block))
  }

  function Unpad(p: seq<byte>, block: nat): (r: Result<seq<byte>, PadError>)
    requires block > 0
  {
    if |p| == 0 || |p| % block != 0 then Err(BadLength)
    else
      var n := p[|p| - 1];
      if n < 1 || n > block then Err(BadLastByte)
      else if n <= |p| && p[|p| - n..] == Repeat(n, n) then Ok(p[..|p| - n])
      else Err(BadPadding)
  }

  /** At least one and at most `block` bytes follow p, to a multiple of `block`; each of them is their number, cut to a byte. */
  ghost predicate PaddedTo(p: seq<byte>, padded: seq<byte>, block: nat)
    requires block > 0
  {
    && |p| < |padded| <= |p| + block && |padded| % block == 0 && padded[..|p|] == p
    && forall j :: |p| <= j < |padded| ==> padded[j] == (|padded| - |p|) % 256
  }

  lemma PadIs(p: seq<byte>, padded: seq<byte>, block: nat)
    requires block > 0
    ensures PaddedTo(p, padded, block) <==> padded == Pad(p, block)
  {
    if PaddedTo(p, padded, block) {
      SameResidue(|p|, |padded| - |p|, block);
      assert padded == p + padded[|p|..];
      assert padded[|p|..] == Repeat(LowByte(|padded| - |p|), |padded| - |p|);
    }
  }

  method PadPKCS7(p: array<byte>, block: nat) returns (out: array<byte>)
    requires block > 0
    ensures fresh(out) && out[..] == Pad(p[..], block)
    ensures PaddedTo(p[..], out[..], block)
  {
    var n: int := block - p.Length % block;
    if n == 0 { n := block; }
    out := new byte[p.Length + n];
    forall i | 0 <= i < p.Length { out[i] := p[i]; }
    for i := p.Length to out.Length
      invariant forall k :: 0 <= k < p.Length ==> out[k] == p[k]
      invariant forall k :: p.Length <= k < i ==> out[k] == LowByte(n)
    {
      out[i] := LowByte(n);
    }
    PadIs(p[..], out[..], block);
  }

  method UnpadPKCS7(p: array<byte>, block: nat) returns (r: Result<seq<byte>, PadError>)
    requires block > 0
    ensures r == Unpad(p[..], block)
    ensures r == Err(BadLength) <==> p.Length == 0 || p.Length % block != 0
    ensures r == Err(BadLastByte) <==>
            p.Length > 0 && p.Length % block == 0 && !(1 <= p[p.Length - 1] <= block)
    ensures r.Ok? ==> var n := p[p.Length - 1];
                      && n <= p.Length && r.value == p[..p.Length - n]
                      && forall j :: p.Length - n <= j < p.Length ==> p[j] == n
    ensures r == Err(BadPadding) ==> var n := p[p.Length - 1];
                                     n <= p.Length && exists j :: p.Length - n <= j < p.Length && p[j] != n
  {
    if p.Length == 0 || p.Length % block != 0 { return Err(BadLength); }
    var n := p[p.Length - 1];
    if n < 1 || n > block { return Err(BadLastByte); }
    AtLeastABlock(p.Length, block);
    for i := p.Length - n to p.Length
      invariant forall k :: p.Length - n <= k < i ==> p[k] == n
    {
      if p[i] != n {
        assert p[..][p.Length - n..][i - (p.Length - n)] != Repeat(n, n)[i - (p.Length - n)];
        return Err(BadPadding);
      }
    }
    assert p[..][p.Length - n..] == Repeat(n, n);
    return Ok(p[..p.Length - n]);
  }

  lemma AtLeastABlock(n: nat, block: nat)
    requires 0 < block && 0 < n && n % block == 0
    ensures block <= n
  {
  }

  /** Unpadding undoes padding exactly when the pad length fits in a byte. */
  lemma PadUnpadIff(p: seq<byte>, block: nat)
    requires block > 0
    ensures Unpad(Pad(p, block), block) == Ok(p) <==> PadLength(|p|, block) <= 255
  {
    var n, q := PadLength(|p|, block), Pad(p, block);
    assert q[|q| - 1] == LowByte(n);
    if n <= 255 {
      assert q[|q| - n..] == Repeat(n, n) && q[..|q| - n] == p;
    }
  }

  /** For block sizes up to 255, unpadding is the exact partial inverse of padding. */
  lemma UnpadExact(p: seq<byte>, q: seq<byte>, block: nat)
    requires 0 < block <= 255
    ensures Unpad(p, block) == Ok(q) <==> p == Pad(q, block)
  {
    PadUnpadIff(q, block);
    if Unpad(p, block) == Ok(q) {
      var n := p[|p| - 1];
      assert p == p[..|p| - n] + p[|p| - n..];
      SameResidue(|q|, n, block);
    }
  }

  /** The pad length is determined by the length it completes. */
  lemma SameResidue(m: nat, n: nat, block: nat)
    requires 0 < block && 1 <= n <= block && (m + n) % block == 0
    ensures n == PadLength(m, block)
  {
    var r := PadLength(m, block);
    var a, b := (m + n) / block, (m + r) / block;
    assert m + n == block * a && m + r == block * b;
    assert n - r == block * (a - b);
    if a > b { Product(block, a - b); }
    if a < b { Product(block, b - a); }
  }
}
