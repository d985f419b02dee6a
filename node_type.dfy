/** The node types of src/nodeType.ts, carried as one byte. */
module NodeType {
  import opened Wrappers
  import opened Bytes
  import opened TlsDecoder
  import opened Number

  /** leaf, parent */
  datatype NodeTypeName = LeafType | ParentType

  /** The code of each name in the table. */
  function NodeTypeValue(t: NodeTypeName): uint8 {
    match t
    case LeafType => 1
    case ParentType => 2
  }

  /** The table read backwards: the name with code `n`, if there is one. */
  function NodeTypeFromValue(n: uint8): (r: Option<NodeTypeName>)
    ensures forall t :: r == Some(t) <==> NodeTypeValue(t) == n
  {
    if n == 1 then Some(LeafType)
    else if n == 2 then Some(ParentType)
    else None
  }

  function EncodeNodeType(t: NodeTypeName): seq<byte> {
    EncodeUint8(NodeTypeValue(t))
  }

  const DecodeNodeType: Decoder<NodeTypeName> := MapDecoderOption(DecodeUint8, NodeTypeFromValue)

  /** Every name is 1 byte on the wire and reads back as itself. */
  lemma NodeTypeRoundTrip(t: NodeTypeName)
    ensures |EncodeNodeType(t)| == 1
    ensures Decodes(DecodeNodeType, EncodeNodeType(t), t)
  {
    Uint8RoundTrip(NodeTypeValue(t));
    MapDecoderOptionDecodes(DecodeUint8, NodeTypeFromValue, EncodeNodeType(t), NodeTypeValue(t), t);
  }

  /** A code outside the table is a decode failure. */
  lemma NodeTypeUnknownRejected(n: uint8)
    requires NodeTypeFromValue(n).None?
    ensures Rejects(DecodeNodeType, EncodeUint8(n))
  {
    Uint8RoundTrip(n);
    MapDecoderOptionRejects(DecodeUint8, NodeTypeFromValue, EncodeUint8(n), n);
  }
}
