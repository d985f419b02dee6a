/** An HPKE ciphertext as carried on the wire, src/hpkeCiphertext.ts. */
module HpkeCiphertext {
  import opened Wrappers
  import opened Bytes
  import opened TlsDecoder
  import opened VariableLength

  datatype HpkeCiphertext = HpkeCiphertext(kemOutput: seq<byte>, ciphertext: seq<byte>)

  function EncodeHpkeCiphertext(c: HpkeCiphertext): seq<byte> {
    EncodeVarLenData(c.kemOutput) + EncodeVarLenData(c.ciphertext)
  }

  const DecodeHpkeCiphertext: Decoder<HpkeCiphertext> :=
    MapDecoders2(DecodeVarLenData, DecodeVarLenData, (k: seq<byte>, c: seq<byte>) => HpkeCiphertext(k, c))

  lemma HpkeCiphertextRoundTrip(c: HpkeCiphertext)
    ensures |EncodeHpkeCiphertext(c)| > 0
    ensures Decodes(DecodeHpkeCiphertext, EncodeHpkeCiphertext(c), c)
  {
    VarLenDataRoundTrip(c.kemOutput);
    VarLenDataRoundTrip(c.ciphertext);
    MapDecoders2Decodes(DecodeVarLenData, DecodeVarLenData, (k: seq<byte>, c: seq<byte>) => HpkeCiphertext(k, c),
      EncodeVarLenData(c.kemOutput), EncodeVarLenData(c.ciphertext), c.kemOutput, c.ciphertext);
  }

  /** Decoding fails when either field fails, and otherwise consumes the two fields' lengths. */
  lemma HpkeCiphertextFails(b: seq<byte>, o: nat)
    ensures DecodeVarLenData(b, o).None? ==> DecodeHpkeCiphertext(b, o).None?
    ensures DecodeVarLenData(b, o).Some? && DecodeVarLenData(b, o + DecodeVarLenData(b, o).value.1).None?
      ==> DecodeHpkeCiphertext(b, o).None?
    ensures DecodeHpkeCiphertext(b, o).Some? ==>
      DecodeHpkeCiphertext(b, o).value.1 == DecodeVarLenData(b, o).value.1 + DecodeVarLenData(b, o + DecodeVarLenData(b, o).value.1).value.1
  {
    MapDecoders2Behaviour(DecodeVarLenData, DecodeVarLenData, (k: seq<byte>, c: seq<byte>) => HpkeCiphertext(k, c), b, o);
  }

  lemma HpkeCiphertextsRoundTrip(cs: seq<HpkeCiphertext>)
    ensures Decodes(DecodeVarLenType(DecodeHpkeCiphertext), EncodeVarLenType(EncodeHpkeCiphertext, cs), cs)
  {
    forall k | 0 <= k < |cs|
      ensures |EncodeHpkeCiphertext(cs[k])| > 0 && Decodes(DecodeHpkeCiphertext, EncodeHpkeCiphertext(cs[k]), cs[k])
    {
      HpkeCiphertextRoundTrip(cs[k]);
    }
    VarLenTypeRoundTrip(DecodeHpkeCiphertext, EncodeHpkeCiphertext, cs);
  }
}
