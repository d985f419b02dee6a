/** The validity window of a key package's leaf, src/lifetime.ts. */
module Lifetime {
  import opened Wrappers
  import opened Bytes
  import opened TlsDecoder
  import opened Number

  datatype Lifetime = Lifetime(notBefore: uint64, notAfter: uint64)

  /** notBefore, then notAfter, each as 8 bytes. */
  function EncodeLifetime(lt: Lifetime): (r: seq<byte>)
    ensures |r| == 16
  {
    EncodeUint64(lt.notBefore) + EncodeUint64(lt.notAfter)
  }

  const DecodeLifetime: Decoder<Lifetime> :=
    MapDecoders2(DecodeUint64, DecodeUint64, (nb: uint64, na: uint64) => Lifetime(nb, na))

  lemma LifetimeRoundTrip(lt: Lifetime)
    ensures Decodes(DecodeLifetime, EncodeLifetime(lt), lt)
  {
    Uint64RoundTrip(lt.notBefore);
    Uint64RoundTrip(lt.notAfter);
    MapDecoders2Decodes(DecodeUint64, DecodeUint64, (nb: uint64, na: uint64) => Lifetime(nb, na),
      EncodeUint64(lt.notBefore), EncodeUint64(lt.notAfter), lt.notBefore, lt.notAfter);
  }

  const DefaultLifetime: Lifetime := Lifetime(0, 0x7FFF_FFFF_FFFF_FFFF)

  /** The default lifetime starts at 0 and ends at 2^63 - 1, the largest signed 64-bit value. */
  lemma DefaultLifetimeSpan()
    ensures DefaultLifetime.notBefore == 0
    ensures DefaultLifetime.notAfter + 1 == Pow256(8) / 2
    ensures EncodeLifetime(DefaultLifetime) == Zeros(8) + [0x7F, 0xFF, 0xFF, 0xFF, 0xFF, 0xFF, 0xFF, 0xFF]
  {
    assert Pow256(8) == 0x1_0000_0000_0000_0000;
    var z := EncodeUint64(0);
    assert z == Zeros(8);
    var top := EncodeUint64(0x7FFF_FFFF_FFFF_FFFF);
    assert top == [0x7F, 0xFF, 0xFF, 0xFF, 0xFF, 0xFF, 0xFF, 0xFF];
  }
}
