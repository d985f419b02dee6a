/** The leaf node sources of src/leafNodeSource.ts, carried as one byte. */
module LeafNodeSource {
  import opened Wrappers
  import opened Bytes
  import opened TlsDecoder
  import opened Number

  /** key_package, update, commit */
  datatype LeafNodeSourceName = KeyPackageSource | UpdateSource | CommitSource

  /** The code of each name in the table. */
  function LeafNodeSourceValue(t: LeafNodeSourceName): uint8 {
    match t
    case KeyPackageSource => 1
    case UpdateSource => 2
    case CommitSource => 3
  }

  /** The table read backwards: the name with code `n`, if there is one. */
  function LeafNodeSourceFromValue(n: uint8): (r: Option<LeafNodeSourceName>)
    ensures forall t :: r == Some(t) <==> LeafNodeSourceValue(t) == n
  {
    if n == 1 then Some(KeyPackageSource)
    else if n == 2 then Some(UpdateSource)
    else if n == 3 then Some(CommitSource)
    else None
  }

  function EncodeLeafNodeSource(t: LeafNodeSourceName): seq<byte> {
    EncodeUint8(LeafNodeSourceValue(t))
  }

  const DecodeLeafNodeSource: Decoder<LeafNodeSourceName> := MapDecoderOption(DecodeUint8, LeafNodeSourceFromValue)

  /** Every name is 1 byte on the wire and reads back as itself. */
  lemma LeafNodeSourceRoundTrip(t: LeafNodeSourceName)
    ensures |EncodeLeafNodeSource(t)| == 1
    ensures Decodes(DecodeLeafNodeSource, EncodeLeafNodeSource(t), t)
  {
    Uint8RoundTrip(LeafNodeSourceValue(t));
    MapDecoderOptionDecodes(DecodeUint8, LeafNodeSourceFromValue, EncodeLeafNodeSource(t), LeafNodeSourceValue(t), t);
  }

  /** A code outside the table is a decode failure. */
  lemma LeafNodeSourceUnknownRejected(n: uint8)
    requires LeafNodeSourceFromValue(n).None?
    ensures Rejects(DecodeLeafNodeSource, EncodeUint8(n))
  {
    Uint8RoundTrip(n);
    MapDecoderOptionRejects(DecodeUint8, LeafNodeSourceFromValue, EncodeUint8(n), n);
  }
}
