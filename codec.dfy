/**
 * The at-rest format of a compiled UDF (`CppBackend::compressBuffer` and
 * `CppBackend::decompressBuffer`): the miniz-compressed shared library
 * followed by an 8-byte trailer holding its uncompressed size.
 *
 * miniz itself is foreign code: `mz_compress` and `mz_uncompress` are
 * parameters of type `Compressor` and `Decompressor`. Each is given the source
 * bytes and the capacity of the destination buffer and yields a status and the
 * bytes it produced; what is proved here is the framing around them.
 */
module Codec {
  import opened Bytes

  /** miniz's `MZ_OK` (`Z_OK`). */
  const ZOk: int := 0

  datatype MzResult = MzResult(status: int, bytes: seq<Byte>)

  /** `mz_compress(dest, &destLen, source, sourceLen)` with `destLen` the capacity. */
  type Compressor = (seq<Byte>, nat) -> MzResult

  /** `mz_uncompress(dest, &destLen, source, sourceLen)` with `destLen` the capacity. */
  type Decompressor = (seq<Byte>, nat) -> MzResult

  /**
   * `std::string::max_size()` on the 64-bit targets this code is built for
   * (libstdc++: half of `PTRDIFF_MAX`, less one); `resize` to a larger size
   * throws `std::length_error`.
   */
  const MaxSize: nat := 0x3FFF_FFFF_FFFF_FFFF

  function Max(a: nat, b: nat): nat { if a >= b then a else b }

  /** miniz's `mz_compressBound`: the buffer size `compressBuffer` allocates. */
  function CompressBound(n: nat): (bound: nat)
    ensures bound >= n + 128
  {
    Max(128 + (n * 110) / 100, 128 + n + ((n / (31 * 1024)) + 1) * 5)
  }

  /** The call `compressBuffer` makes to the compressor. */
  function Compressed(data: seq<Byte>, mzCompress: Compressor): MzResult
  {
    mzCompress(data, CompressBound(|data|))
  }

  /**
   * The trailer is copied to `compressed[csize]` before the buffer is shrunk,
   * so a successful compressor must leave room for it in the buffer.
   */
  predicate FitsWithTrailer(data: seq<Byte>, mzCompress: Compressor)
  {
    var res := Compressed(data, mzCompress);
    res.status == ZOk ==> |res.bytes| + TrailerSize <= CompressBound(|data|)
  }

  /** The blob `compressBuffer` returns, as a value. */
  function Blob(data: seq<Byte>, mzCompress: Compressor): seq<Byte>
    requires |data| < U64Limit
  {
    var res := Compressed(data, mzCompress);
    if res.status != ZOk then [] else res.bytes + EncodeU64(|data|)
  }

  /** `memcpy(&a[offset], src, |src|)`. */
  method CopyInto(a: array<Byte>, offset: nat, src: seq<Byte>)
    requires offset + |src| <= a.Length
    modifies a
    ensures a[..] == old(a[..offset]) + src + old(a[offset + |src|..])
  {
    var k := 0;
    while k < |src|
      invariant 0 <= k <= |src|
      invariant a[..offset] == old(a[..offset])
      invariant a[offset..offset + k] == src[..k]
      invariant a[offset + |src|..] == old(a[offset + |src|..])
      invariant a[offset + k..] == old(a[offset + k..])
    {
      a[offset + k] := src[k];
      k := k + 1;
    }
    assert a[..] == a[..offset] + a[offset..offset + |src|] + a[offset + |src|..];
  }

  /**
   * `compressBuffer(data, usize)`: compress into a buffer of
   * `mz_compressBound(usize)` bytes, write the 8-byte size at offset `csize`,
   * then shrink the buffer to `csize + 8`. A compressor failure gives `""`.
   */
  method CompressBuffer(data: seq<Byte>, mzCompress: Compressor) returns (blob: seq<Byte>)
    requires |data| < U64Limit
    requires CompressBound(|data|) <= MaxSize
    requires FitsWithTrailer(data, mzCompress)
    ensures Compressed(data, mzCompress).status != ZOk ==> blob == []
    ensures Compressed(data, mzCompress).status == ZOk ==>
              var csize := |Compressed(data, mzCompress).bytes|;
              && |blob| == csize + TrailerSize
              && blob[..csize] == Compressed(data, mzCompress).bytes
              && DecodeU64(blob[csize..]) == |data|
    ensures blob == Blob(data, mzCompress)
  {
    var bound := CompressBound(|data|);
    var compressed := new Byte[bound](_ => 0);
    var res := mzCompress(data, bound);
    if res.status != ZOk {
      return [];
    }
    var csize := |res.bytes|;
    CopyInto(compressed, 0, res.bytes);
    var trailer := EncodeU64(|data|);
    CopyInto(compressed, csize, trailer);
    blob := compressed[..csize + TrailerSize];
    assert blob[..csize] == res.bytes;
    assert blob[csize..] == trailer;
    TrailerRoundTrip(|data|);
  }

  /** The compressed payload of a blob: everything before the trailer. */
  function Payload(blob: seq<Byte>): seq<Byte>
    requires |blob| >= TrailerSize
  {
    blob[..|blob| - TrailerSize]
  }

  /** The original size recorded in a blob's last 8 bytes. */
  function StoredSize(blob: seq<Byte>): U64
    requires |blob| >= TrailerSize
  {
    DecodeU64(blob[|blob| - TrailerSize..])
  }

  /** What `decompressBuffer` gives its caller: a string, or the exception `resize` throws. */
  datatype Decompressed = Decompressed(bytes: seq<Byte>) | LengthError

  /**
   * `decompressBuffer(data, csize)`: read the size from the last 8 bytes,
   * make a zero-filled buffer of that size (which throws when the size is
   * above `max_size()`), decompress the bytes before the trailer into it, and
   * return the whole buffer, or `""` if the decompressor fails. The source
   * reads the trailer unchecked, so a blob needs at least 8 bytes.
   */
  function DecompressBuffer(blob: seq<Byte>, mzUncompress: Decompressor): (r: Decompressed)
    requires |blob| >= TrailerSize
    ensures r == LengthError <==> StoredSize(blob) > MaxSize
    ensures r.Decompressed? && mzUncompress(Payload(blob), StoredSize(blob)).status != ZOk ==> r.bytes == []
    ensures r.Decompressed? && mzUncompress(Payload(blob), StoredSize(blob)).status == ZOk ==>
              |r.bytes| == StoredSize(blob) &&
              var out := mzUncompress(Payload(blob), StoredSize(blob)).bytes;
              (|out| <= |r.bytes| ==> r.bytes[..|out|] == out)
  {
    var usize := StoredSize(blob);
    if usize > MaxSize then LengthError
    else
      var res := mzUncompress(Payload(blob), usize);
      if res.status != ZOk then Decompressed([]) else Decompressed(Fill(res.bytes, usize))
  }

  /** A blob made by `compressBuffer` splits back into the payload and the size. */
  lemma {:induction false} BlobLayout(data: seq<Byte>, mzCompress: Compressor)
    requires |data| < U64Limit
    requires Compressed(data, mzCompress).status == ZOk
    ensures var blob := Blob(data, mzCompress);
            && |blob| == |Compressed(data, mzCompress).bytes| + TrailerSize
            && Payload(blob) == Compressed(data, mzCompress).bytes
            && StoredSize(blob) == |data|
  {
    var blob := Blob(data, mzCompress);
    var csize := |Compressed(data, mzCompress).bytes|;
    assert blob[csize..] == EncodeU64(|data|);
    TrailerRoundTrip(|data|);
  }

  /**
   * `decompressBuffer(compressBuffer(b)) == b`, whenever the decompressor
   * inverts the compressor on `b` (given `b`'s size as the capacity).
   */
  lemma {:induction false} RoundTrip(data: seq<Byte>, mzCompress: Compressor, mzUncompress: Decompressor)
    requires |data| <= MaxSize
    requires Compressed(data, mzCompress).status == ZOk
    requires mzUncompress(Compressed(data, mzCompress).bytes, |data|) == MzResult(ZOk, data)
    ensures |Blob(data, mzCompress)| >= TrailerSize
    ensures DecompressBuffer(Blob(data, mzCompress), mzUncompress) == Decompressed(data)
  {
    BlobLayout(data, mzCompress);
  }
}
