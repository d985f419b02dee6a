/** The wire formats of src/wireformat.ts, carried as a 2-byte code. */
module Wireformat {
  import opened Wrappers
  import opened Bytes
  import opened TlsDecoder
  import opened Number

  /** mls_public_message, mls_private_message, mls_welcome, mls_group_info, mls_key_package */
  datatype WireformatName = MlsPublicMessage | MlsPrivateMessage | MlsWelcome | MlsGroupInfo | MlsKeyPackage

  /** The code of each name in the table. */
  function WireformatValue(t: WireformatName): uint16 {
    match t
    case MlsPublicMessage => 1
    case MlsPrivateMessage => 2
    case MlsWelcome => 3
    case MlsGroupInfo => 4
    case MlsKeyPackage => 5
  }

  /** The table read backwards: the name with code `n`, if there is one. */
  function WireformatFromValue(n: uint16): (r: Option<WireformatName>)
    ensures forall t :: r == Some(t) <==> WireformatValue(t) == n
  {
    if n == 1 then Some(MlsPublicMessage)
    else if n == 2 then Some(MlsPrivateMessage)
    else if n == 3 then Some(MlsWelcome)
    else if n == 4 then Some(MlsGroupInfo)
    else if n == 5 then Some(MlsKeyPackage)
    else None
  }

  function EncodeWireformat(t: WireformatName): seq<byte> {
    EncodeUint16(WireformatValue(t))
  }

  const DecodeWireformat: Decoder<WireformatName> := MapDecoderOption(DecodeUint16, WireformatFromValue)

  /** Every name is 2 bytes on the wire and reads back as itself. */
  lemma WireformatRoundTrip(t: WireformatName)
    ensures |EncodeWireformat(t)| == 2
    ensures Decodes(DecodeWireformat, EncodeWireformat(t), t)
  {
    Uint16RoundTrip(WireformatValue(t));
    MapDecoderOptionDecodes(DecodeUint16, WireformatFromValue, EncodeWireformat(t), WireformatValue(t), t);
  }

  /** A code outside the table is a decode failure. */
  lemma WireformatUnknownRejected(n: uint16)
    requires WireformatFromValue(n).None?
    ensures Rejects(DecodeWireformat, EncodeUint16(n))
  {
    Uint16RoundTrip(n);
    MapDecoderOptionRejects(DecodeUint16, WireformatFromValue, EncodeUint16(n), n);
  }
}
