/**
 * Fixed-width unsigned integers, big-endian, as codec/number encodes them
 * (codec/number is not part of this model; its codecs are specified here by
 * their width and byte order, section 3.3 of RFC 8446).
 */
module Number {
  import opened Wrappers
  import opened Bytes
  import opened TlsDecoder

  /** `n` in `w` bytes, most significant first. */
  function EncodeBE(n: nat, w: nat): (r: seq<byte>)
    requires n < Pow256(w)
    ensures |r| == w
    decreases w
  {
    if w == 0 then [] else EncodeBE(n / 256, w - 1) + [n % 256]
  }

  /** The number that the bytes `s` denote, most significant first. */
  function ValueBE(s: seq<byte>): (r: nat)
    ensures r < Pow256(|s|)
    decreases |s|
  {
    if s == [] then 0 else ValueBE(s[..|s| - 1]) * 256 + s[|s| - 1]
  }

  lemma {:induction false} ValueOfEncodeBE(n: nat, w: nat)
    requires n < Pow256(w)
    ensures ValueBE(EncodeBE(n, w)) == n
    decreases w
  {
    if w > 0 {
      var e := EncodeBE(n, w);
      assert e[..w - 1] == EncodeBE(n / 256, w - 1);
      ValueOfEncodeBE(n / 256, w - 1);
    }
  }

  /** Two byte strings of one width with the same value are the same bytes. */
  lemma {:induction false} EncodeOfValueBE(s: seq<byte>)
    ensures EncodeBE(ValueBE(s), |s|) == s
    decreases |s|
  {
    if s != [] {
      var n := ValueBE(s);
      var init := s[..|s| - 1];
      assert n / 256 == ValueBE(init) && n % 256 == s[|s| - 1];
      EncodeOfValueBE(init);
      assert init + [s[|s| - 1]] == s;
    }
  }

  /** Reads a `w`-byte big-endian number. */
  function DecodeBE(w: nat): Decoder<nat> {
    (b: seq<byte>, o: nat) => if o + w <= |b| then Some((ValueBE(b[o..o + w]), w)) else None
  }

  lemma DecodeBEDecodes(n: nat, w: nat)
    requires n < Pow256(w)
    ensures Decodes(DecodeBE(w), EncodeBE(n, w), n)
  {
    ValueOfEncodeBE(n, w);
  }

  function EncodeUint8(n: uint8): (r: seq<byte>)
    ensures |r| == 1
  {
    [n]
  }

  function EncodeUint16(n: uint16): (r: seq<byte>)
    ensures |r| == 2
  {
    EncodeBE(n, 2)
  }

  function EncodeUint32(n: uint32): (r: seq<byte>)
    ensures |r| == 4
  {
    EncodeBE(n, 4)
  }

  function EncodeUint64(n: uint64): (r: seq<byte>)
    ensures |r| == 8
  {
    assert Pow256(8) == 0x1_0000_0000_0000_0000;
    EncodeBE(n, 8)
  }

  const DecodeUint8: Decoder<uint8> :=
    (b: seq<byte>, o: nat) => if o < |b| then Some((b[o], 1)) else None

  const DecodeUint16: Decoder<uint16> :=
    (b: seq<byte>, o: nat) =>
      if o + 2 <= |b| then var v: uint16 := ValueBE(b[o..o + 2]); Some((v, 2)) else None

  const DecodeUint32: Decoder<uint32> :=
    (b: seq<byte>, o: nat) =>
      if o + 4 <= |b| then
        assert Pow256(4) == 0x1_0000_0000;
        var v: uint32 := ValueBE(b[o..o + 4]); Some((v, 4))
      else None

  const DecodeUint64: Decoder<uint64> :=
    (b: seq<byte>, o: nat) =>
      if o + 8 <= |b| then
        assert Pow256(8) == 0x1_0000_0000_0000_0000;
        var v: uint64 := ValueBE(b[o..o + 8]); Some((v, 8))
      else None

  lemma Uint8RoundTrip(n: uint8)
    ensures Decodes(DecodeUint8, EncodeUint8(n), n)
  {
    forall b: seq<byte>, o: nat | o + 1 <= |b| && b[o..o + 1] == [n]
      ensures DecodeUint8(b, o) == Some((n, 1))
    {
      assert b[o] == b[o..o + 1][0];
    }
  }

  lemma Uint16RoundTrip(n: uint16)
    ensures Decodes(DecodeUint16, EncodeUint16(n), n)
  {
    ValueOfEncodeBE(n, 2);
  }

  lemma Uint32RoundTrip(n: uint32)
    ensures Decodes(DecodeUint32, EncodeUint32(n), n)
  {
    ValueOfEncodeBE(n, 4);
  }

  lemma Uint64RoundTrip(n: uint64)
    ensures Decodes(DecodeUint64, EncodeUint64(n), n)
  {
    assert Pow256(8) == 0x1_0000_0000_0000_0000;
    ValueOfEncodeBE(n, 8);
  }

  /** Any two bytes read as the 16-bit number whose encoding they are. */
  lemma Uint16Reads(b: seq<byte>, o: nat)
    requires o + 2 <= |b|
    ensures DecodeUint16(b, o).Some?
    ensures EncodeUint16(DecodeUint16(b, o).value.0) == b[o..o + 2]
  {
    EncodeOfValueBE(b[o..o + 2]);
  }

  lemma Uint8Reads(b: seq<byte>, o: nat)
    requires o < |b|
    ensures DecodeUint8(b, o) == Some((b[o], 1))
  {
  }

  /** Fewer than two bytes fail to decode. */
  lemma Uint16Short(b: seq<byte>, o: nat)
    requires |b| < o + 2
    ensures DecodeUint16(b, o).None?
  {
  }
}
