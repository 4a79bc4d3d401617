/**
 * The cache entry layout of src/query_cache.go: eight little-endian bytes holding
 * the body length, the body, then the metadata.  The reader's bounds check runs in
 * wrapping 64-bit arithmetic, so a stored length can defeat it; the lemmas say
 * exactly which lengths do, and that no written entry carries one.
 */
module Codec {
  import opened Common

  /** The two's-complement reading of a uint64, Go's conversion int(u). */
  function AsInt(u: uint64): int {
    if u < TWO_63 then u else u - TWO_64
  }

  /** Go's int addition result: the mathematical value wrapped to 64 bits. */
  function WrapInt(x: int): int {
    (x + TWO_63) % TWO_64 - TWO_63
  }

  function WrapUint(x: nat): uint64 {
    x % TWO_64
  }

  /** The low `k` bytes of `n`, least significant first. */
  function ToLittleEndian(n: nat, k: nat): (r: seq<byte>)
    ensures |r| == k
  {
    if k == 0 then [] else [n % 256] + ToLittleEndian(n / 256, k - 1)
  }

  function FromLittleEndian(data: seq<byte>): nat {
    if data == [] then 0 else data[0] + 256 * FromLittleEndian(data[1..])
  }

  ghost function Pow256(k: nat): nat {
    if k == 0 then 1 else 256 * Pow256(k - 1)
  }

  lemma {:induction false} LittleEndianRoundTrip(n: nat, k: nat)
    requires n < Pow256(k)
    ensures FromLittleEndian(ToLittleEndian(n, k)) == n
  {
    if k > 0 {
      LittleEndianRoundTrip(n / 256, k - 1);
      assert ToLittleEndian(n, k)[1..] == ToLittleEndian(n / 256, k - 1);
    }
  }

  lemma LowByte(b: byte, n: nat)
    ensures (b + 256 * n) % 256 == b && (b + 256 * n) / 256 == n
  {
  }

  lemma {:induction false} LittleEndianInverse(data: seq<byte>)
    ensures FromLittleEndian(data) < Pow256(|data|)
    ensures ToLittleEndian(FromLittleEndian(data), |data|) == data
  {
    if data != [] {
      var rest, n := data[1..], FromLittleEndian(data[1..]);
      LittleEndianInverse(rest);
      LowByte(data[0], n);
      assert FromLittleEndian(data) == data[0] + 256 * n;
      assert ToLittleEndian(data[0] + 256 * n, |data|) == [data[0]] + ToLittleEndian(n, |rest|);
    }
  }

  lemma Pow256Of8()
    ensures Pow256(8) == TWO_64
  {
    assert Pow256(4) == 0x1_0000_0000;
  }

  /** The entry written for a response body and its marshalled metadata. */
  function Encode(body: seq<byte>, meta: seq<byte>): seq<byte> {
    ToLittleEndian(|body|, 8) + body + meta
  }

  /** A slice that Go can hold has a length that fits an int. */
  predicate Holdable(data: seq<byte>) {
    |data| < TWO_63
  }

  datatype Decoded =
    | Decoded(body: seq<byte>, meta: seq<byte>)
    | TooShort
    | MissingBody
    | SlicePanic

  /** The body length field, as read by binary.LittleEndian.Uint64. */
  function StoredLength(data: seq<byte>): (n: uint64)
    requires |data| > 8
  {
    LittleEndianInverse(data[..8]);
    Pow256Of8();
    FromLittleEndian(data[..8])
  }

  /** The reader: length check, wrapping bounds check, then two slice expressions. */
  function Decode(data: seq<byte>): Decoded
    requires Holdable(data)
  {
    if |data| <= 8 then TooShort
    else
      var n := StoredLength(data);
      if |data| < WrapInt(8 + AsInt(n)) then MissingBody
      else
        var end := WrapUint(8 + n);
        if 8 <= end <= |data| then Decoded(data[8..end], data[end..]) else SlicePanic
  }

  /**
   * The wrapping check protects the slices for exactly the stored lengths up to
   * 2^63 - 9: below that the reader answers or reports an error, above it the slice
   * expressions panic whatever the rest of the data is.
   */
  lemma DecodePanicsIffLengthOverflows(data: seq<byte>)
    requires Holdable(data) && |data| > 8
    ensures Decode(data).SlicePanic? <==> StoredLength(data) > TWO_63 - 9
  {
    var n := StoredLength(data);
    if n >= TWO_63 {
      assert WrapInt(8 + AsInt(n)) == 8 + n - TWO_64;
    }
  }

  /** The reader succeeds exactly when the stored length fits, and then splits the data there. */
  lemma DecodeSplits(data: seq<byte>)
    requires Holdable(data)
    ensures Decode(data).Decoded? <==> |data| > 8 && 8 + StoredLength(data) <= |data|
    ensures Decode(data).Decoded? ==>
              var n := StoredLength(data); Decode(data) == Decoded(data[8..8 + n], data[8 + n..])
  {
    if |data| > 8 {
      DecodePanicsIffLengthOverflows(data);
      var n := StoredLength(data);
      if 8 + n <= |data| {
        assert WrapInt(8 + AsInt(n)) == 8 + n && WrapUint(8 + n) == 8 + n;
      }
    }
  }

  /** Decoding succeeds exactly on the images of Encode with something after the length field. */
  lemma DecodeInvertsEncode(data: seq<byte>)
    requires Holdable(data)
    ensures Decode(data).Decoded? <==> |data| > 8 && 8 + StoredLength(data) <= |data|
    ensures Decode(data).Decoded? ==> Encode(Decode(data).body, Decode(data).meta) == data
  {
    DecodeSplits(data);
    if Decode(data).Decoded? {
      var n := StoredLength(data);
      LittleEndianInverse(data[..8]);
      assert ToLittleEndian(n, 8) == data[..8];
      assert data == data[..8] + data[8..8 + n] + data[8 + n..];
    }
  }

  lemma EncodedLength(body: seq<byte>, meta: seq<byte>)
    requires Holdable(Encode(body, meta)) && |body| + |meta| > 0
    ensures StoredLength(Encode(body, meta)) == |body|
  {
    Pow256Of8();
    assert Encode(body, meta)[..8] == ToLittleEndian(|body|, 8);
    LittleEndianRoundTrip(|body|, 8);
  }

  /**
   * Every entry that fits in memory reads back as the body and metadata written,
   * except the one with neither: nine bytes is the shortest entry the reader accepts.
   */
  lemma EncodeDecodes(body: seq<byte>, meta: seq<byte>)
    requires Holdable(Encode(body, meta))
    ensures |body| + |meta| > 0 <==> Decode(Encode(body, meta)) == Decoded(body, meta)
    ensures |body| + |meta| > 0 ==> StoredLength(Encode(body, meta)) == |body| <= TWO_63 - 9
  {
    var data := Encode(body, meta);
    if |data| > 8 {
      EncodedLength(body, meta);
      assert data[8..8 + |body|] == body && data[8 + |body|..] == meta;
      assert WrapInt(8 + AsInt(|body|)) == 8 + |body| && WrapUint(8 + |body|) == 8 + |body|;
    }
  }

  /** Fills an eight byte buffer with a length, low byte first. */
  method PutUint64(buf: array<byte>, n: uint64)
    requires buf.Length == 8
    modifies buf
    ensures buf[..] == ToLittleEndian(n, 8)
  {
    var rest, i := n, 0;
    while i < 8
      invariant 0 <= i <= 8 && 0 <= rest
      invariant buf[..i] + ToLittleEndian(rest, 8 - i) == ToLittleEndian(n, 8)
    {
      ghost var before := buf[..i];
      ghost var tail := ToLittleEndian(rest, 8 - i);
      buf[i] := rest % 256;
      rest := rest / 256;
      i := i + 1;
      assert buf[..i] == before + [tail[0]];
      assert tail == [tail[0]] + ToLittleEndian(rest, 8 - i);
      assert before + tail == buf[..i] + ToLittleEndian(rest, 8 - i);
    }
    assert buf[..8] + ToLittleEndian(rest, 0) == buf[..];
  }

  /** ReadResponseBodyAndSaveToCache's buffer: length, then body, then metadata appended. */
  method BuildEntry(body: seq<byte>, meta: seq<byte>) returns (data: seq<byte>)
    requires Holdable(Encode(body, meta))
    ensures data == Encode(body, meta)
    ensures |body| + |meta| > 0 ==> Decode(data) == Decoded(body, meta)
  {
    var header := new byte[8];
    PutUint64(header, |body|);
    data := header[..];
    data := data + body;
    data := data + meta;
    EncodeDecodes(body, meta);
  }
}
