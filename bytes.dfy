/**
 * Bytes and the fixed-width integer encoding used by the blob trailer: a
 * `uint64_t` copied byte for byte with `memcpy`, i.e. in the machine's native
 * order, which on the x86-64 targets this code is built for is little-endian.
 */
module Bytes {

  type Byte = b: int | 0 <= b < 256

  /** `sizeof(uint64_t)`: the width of the size trailer. */
  const TrailerSize: nat := 8

  /** One more than the largest `uint64_t`. */
  const U64Limit: nat := 0x1_0000_0000_0000_0000

  type U64 = n: int | 0 <= n < U64Limit

  function Pow256(k: nat): (p: nat)
    ensures p >= 1
  {
    if k == 0 then 1 else 256 * Pow256(k - 1)
  }

  lemma Pow256Eight()
    ensures Pow256(TrailerSize) == U64Limit
  {
  }

  /** The `k` low-order bytes of `n`, least significant first. */
  function EncodeLE(n: nat, k: nat): (r: seq<Byte>)
    ensures |r| == k
  {
    if k == 0 then [] else [(n % 256) as Byte] + EncodeLE(n / 256, k - 1)
  }

  /** The number whose little-endian bytes are `b`. */
  function DecodeLE(b: seq<Byte>): (n: nat)
    ensures n < Pow256(|b|)
  {
    if |b| == 0 then 0 else b[0] + 256 * DecodeLE(b[1..])
  }

  /** Decoding undoes encoding for every value that fits in `k` bytes. */
  lemma {:induction false} DecodeEncode(n: nat, k: nat)
    requires n < Pow256(k)
    ensures DecodeLE(EncodeLE(n, k)) == n
  {
    if k > 0 {
      var e := EncodeLE(n, k);
      assert e[1..] == EncodeLE(n / 256, k - 1);
      DecodeEncode(n / 256, k - 1);
    }
  }

  /** Encoding undoes decoding: every `k`-byte sequence is some value's encoding. */
  lemma {:induction false} EncodeDecode(b: seq<Byte>)
    ensures EncodeLE(DecodeLE(b), |b|) == b
  {
    if |b| > 0 {
      var n := DecodeLE(b);
      assert n == b[0] + 256 * DecodeLE(b[1..]);
      assert n % 256 == b[0];
      assert n / 256 == DecodeLE(b[1..]);
      EncodeDecode(b[1..]);
    }
  }

  /** `memcpy(dst, &n, sizeof(uint64_t))`: the 8 bytes of a `uint64_t`. */
  function EncodeU64(n: U64): (r: seq<Byte>)
    ensures |r| == TrailerSize
    ensures DecodeLE(r) == n
  {
    Pow256Eight();
    DecodeEncode(n, TrailerSize);
    EncodeLE(n, TrailerSize)
  }

  /** `memcpy(&n, src, sizeof(uint64_t))`: the `uint64_t` held in 8 bytes. */
  function DecodeU64(b: seq<Byte>): (n: U64)
    requires |b| == TrailerSize
    ensures EncodeU64(n) == b
  {
    Pow256Eight();
    EncodeDecode(b);
    DecodeLE(b)
  }

  /** Reading back a written trailer gives the value written. */
  lemma TrailerRoundTrip(n: U64)
    ensures DecodeU64(EncodeU64(n)) == n
  {
    var b := EncodeU64(n);
    assert EncodeU64(DecodeU64(b)) == b;
    Pow256Eight();
    DecodeEncode(n, TrailerSize);
  }

  function Zeros(n: nat): (r: seq<Byte>)
    ensures |r| == n && forall i :: 0 <= i < n ==> r[i] == 0
  {
    seq(n, _ => 0)
  }

  /**
   * The contents of a zero-initialised buffer of `n` bytes after `b` has been
   * written at its start; nothing beyond the buffer is written.
   */
  function Fill(b: seq<Byte>, n: nat): (r: seq<Byte>)
    ensures |r| == n
    ensures |b| <= n ==> r[..|b|] == b && r[|b|..] == Zeros(n - |b|)
    ensures |b| >= n ==> r == b[..n]
  {
    if |b| >= n then b[..n] else b + Zeros(n - |b|)
  }
}
