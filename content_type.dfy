/** The content types of src/contentType.ts, carried as one byte. */
module ContentType {
  import opened Wrappers
  import opened Bytes
  import opened TlsDecoder
  import opened Number

  /** application, proposal, commit */
  datatype ContentTypeName = Application | ProposalContent | CommitContent

  /** The code of each name in the table. */
  function ContentTypeValue(t: ContentTypeName): uint8 {
    match t
    case Application => 1
    case ProposalContent => 2
    case CommitContent => 3
  }

  /** The table read backwards: the name with code `n`, if there is one. */
  function ContentTypeFromValue(n: uint8): (r: Option<ContentTypeName>)
    ensures forall t :: r == Some(t) <==> ContentTypeValue(t) == n
  {
    if n == 1 then Some(Application)
    else if n == 2 then Some(ProposalContent)
    else if n == 3 then Some(CommitContent)
    else None
  }

  function EncodeContentType(t: ContentTypeName): seq<byte> {
    EncodeUint8(ContentTypeValue(t))
  }

  const DecodeContentType: Decoder<ContentTypeName> := MapDecoderOption(DecodeUint8, ContentTypeFromValue)

  /** Every name is 1 byte on the wire and reads back as itself. */
  lemma ContentTypeRoundTrip(t: ContentTypeName)
    ensures |EncodeContentType(t)| == 1
    ensures Decodes(DecodeContentType, EncodeContentType(t), t)
  {
    Uint8RoundTrip(ContentTypeValue(t));
    MapDecoderOptionDecodes(DecodeUint8, ContentTypeFromValue, EncodeContentType(t), ContentTypeValue(t), t);
  }

  /** A code outside the table is a decode failure. */
  lemma ContentTypeUnknownRejected(n: uint8)
    requires ContentTypeFromValue(n).None?
    ensures Rejects(DecodeContentType, EncodeUint8(n))
  {
    Uint8RoundTrip(n);
    MapDecoderOptionRejects(DecodeUint8, ContentTypeFromValue, EncodeUint8(n), n);
  }
}
