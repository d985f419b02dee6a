/** The proposal types defined by RFC 9420 (src/defaultProposalType.ts), a 2-byte code. */
module DefaultProposalType {
  import opened Wrappers
  import opened Bytes
  import opened TlsDecoder
  import opened Number

  /** add, update, remove, psk, reinit, external_init, group_context_extensions */
  datatype DefaultProposalTypeName = AddType | UpdateType | RemoveType | PskType | ReinitType | ExternalInitType | GroupContextExtensionsType

  /** The code of each name in the table. */
  function DefaultProposalTypeValue(t: DefaultProposalTypeName): uint16 {
    match t
    case AddType => 1
    case UpdateType => 2
    case RemoveType => 3
    case PskType => 4
    case ReinitType => 5
    case ExternalInitType => 6
    case GroupContextExtensionsType => 7
  }

  /** The table read backwards: the name with code `n`, if there is one. */
  function DefaultProposalTypeFromValue(n: uint16): (r: Option<DefaultProposalTypeName>)
    ensures forall t :: r == Some(t) <==> DefaultProposalTypeValue(t) == n
  {
    if n == 1 then Some(AddType)
    else if n == 2 then Some(UpdateType)
    else if n == 3 then Some(RemoveType)
    else if n == 4 then Some(PskType)
    else if n == 5 then Some(ReinitType)
    else if n == 6 then Some(ExternalInitType)
    else if n == 7 then Some(GroupContextExtensionsType)
    else None
  }

  function EncodeDefaultProposalType(t: DefaultProposalTypeName): seq<byte> {
    EncodeUint16(DefaultProposalTypeValue(t))
  }

  const DecodeDefaultProposalType: Decoder<DefaultProposalTypeName> := MapDecoderOption(DecodeUint16, DefaultProposalTypeFromValue)

  /** Every name is 2 bytes on the wire and reads back as itself. */
  lemma DefaultProposalTypeRoundTrip(t: DefaultProposalTypeName)
    ensures |EncodeDefaultProposalType(t)| == 2
    ensures Decodes(DecodeDefaultProposalType, EncodeDefaultProposalType(t), t)
  {
    Uint16RoundTrip(DefaultProposalTypeValue(t));
    MapDecoderOptionDecodes(DecodeUint16, DefaultProposalTypeFromValue, EncodeDefaultProposalType(t), DefaultProposalTypeValue(t), t);
  }

  /** A code outside the table is a decode failure. */
  lemma DefaultProposalTypeUnknownRejected(n: uint16)
    requires DefaultProposalTypeFromValue(n).None?
    ensures Rejects(DecodeDefaultProposalType, EncodeUint16(n))
  {
    Uint16RoundTrip(n);
    MapDecoderOptionRejects(DecodeUint16, DefaultProposalTypeFromValue, EncodeUint16(n), n);
  }
}
