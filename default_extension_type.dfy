/** The extension types defined by RFC 9420 (src/defaultExtensionType.ts), a 2-byte code. */
module DefaultExtensionType {
  import opened Wrappers
  import opened Bytes
  import opened TlsDecoder
  import opened Number

  /** application_id, ratchet_tree, required_capabilities, external_pub, external_senders */
  datatype DefaultExtensionTypeName = ApplicationId | RatchetTree | RequiredCapabilities | ExternalPub | ExternalSenders

  /** The code of each name in the table. */
  function DefaultExtensionTypeValue(t: DefaultExtensionTypeName): uint16 {
    match t
    case ApplicationId => 1
    case RatchetTree => 2
    case RequiredCapabilities => 3
    case ExternalPub => 4
    case ExternalSenders => 5
  }

  /** The table read backwards: the name with code `n`, if there is one. */
  function DefaultExtensionTypeFromValue(n: uint16): (r: Option<DefaultExtensionTypeName>)
    ensures forall t :: r == Some(t) <==> DefaultExtensionTypeValue(t) == n
  {
    if n == 1 then Some(ApplicationId)
    else if n == 2 then Some(RatchetTree)
    else if n == 3 then Some(RequiredCapabilities)
    else if n == 4 then Some(ExternalPub)
    else if n == 5 then Some(ExternalSenders)
    else None
  }

  function EncodeDefaultExtensionType(t: DefaultExtensionTypeName): seq<byte> {
    EncodeUint16(DefaultExtensionTypeValue(t))
  }

  const DecodeDefaultExtensionType: Decoder<DefaultExtensionTypeName> := MapDecoderOption(DecodeUint16, DefaultExtensionTypeFromValue)

  /** Every name is 2 bytes on the wire and reads back as itself. */
  lemma DefaultExtensionTypeRoundTrip(t: DefaultExtensionTypeName)
    ensures |EncodeDefaultExtensionType(t)| == 2
    ensures Decodes(DecodeDefaultExtensionType, EncodeDefaultExtensionType(t), t)
  {
    Uint16RoundTrip(DefaultExtensionTypeValue(t));
    MapDecoderOptionDecodes(DecodeUint16, DefaultExtensionTypeFromValue, EncodeDefaultExtensionType(t), DefaultExtensionTypeValue(t), t);
  }

  /** A code outside the table is a decode failure. */
  lemma DefaultExtensionTypeUnknownRejected(n: uint16)
    requires DefaultExtensionTypeFromValue(n).None?
    ensures Rejects(DecodeDefaultExtensionType, EncodeUint16(n))
  {
    Uint16RoundTrip(n);
    MapDecoderOptionRejects(DecodeUint16, DefaultExtensionTypeFromValue, EncodeUint16(n), n);
  }
}
