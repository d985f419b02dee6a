/** The protocol versions of src/protocolVersion.ts, carried as a 2-byte code. */
module ProtocolVersion {
  import opened Wrappers
  import opened Bytes
  import opened TlsDecoder
  import opened Number

  /** mls10, the only version */
  datatype ProtocolVersionName = Mls10

  /** The code of each name in the table. */
  function ProtocolVersionValue(t: ProtocolVersionName): uint16 {
    match t
    case Mls10 => 1
  }

  /** The table read backwards: the name with code `n`, if there is one. */
  function ProtocolVersionFromValue(n: uint16): (r: Option<ProtocolVersionName>)
    ensures forall t :: r == Some(t) <==> ProtocolVersionValue(t) == n
  {
    if n == 1 then assert forall t :: ProtocolVersionValue(t) == 1 && t == Mls10; Some(Mls10)
    else None
  }

  function EncodeProtocolVersion(t: ProtocolVersionName): seq<byte> {
    EncodeUint16(ProtocolVersionValue(t))
  }

  const DecodeProtocolVersion: Decoder<ProtocolVersionName> := MapDecoderOption(DecodeUint16, ProtocolVersionFromValue)

  /** Every name is 2 bytes on the wire and reads back as itself. */
  lemma ProtocolVersionRoundTrip(t: ProtocolVersionName)
    ensures |EncodeProtocolVersion(t)| == 2
    ensures Decodes(DecodeProtocolVersion, EncodeProtocolVersion(t), t)
  {
    Uint16RoundTrip(ProtocolVersionValue(t));
    MapDecoderOptionDecodes(DecodeUint16, ProtocolVersionFromValue, EncodeProtocolVersion(t), ProtocolVersionValue(t), t);
  }

  /** A code outside the table is a decode failure. */
  lemma ProtocolVersionUnknownRejected(n: uint16)
    requires ProtocolVersionFromValue(n).None?
    ensures Rejects(DecodeProtocolVersion, EncodeUint16(n))
  {
    Uint16RoundTrip(n);
    MapDecoderOptionRejects(DecodeUint16, ProtocolVersionFromValue, EncodeUint16(n), n);
  }
}
