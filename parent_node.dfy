/** The contents of a parent node of the ratchet tree, src/parentNode.ts. */
module ParentNode {
  import opened Wrappers
  import opened Bytes
  import opened TlsDecoder
  import opened Number
  import opened VariableLength

  datatype ParentNode = ParentNode(hpkePublicKey: seq<byte>, parentHash: seq<byte>, unmergedLeaves: seq<uint32>)

  /** The key, the parent hash, then the unmerged leaves as a list of 4-byte leaf indices. */
  function EncodeParentNode(n: ParentNode): seq<byte> {
    EncodeVarLenData(n.hpkePublicKey) + EncodeVarLenData(n.parentHash) + EncodeVarLenType(EncodeUint32, n.unmergedLeaves)
  }

  const DecodeParentNode: Decoder<ParentNode> :=
    MapDecoders3(DecodeVarLenData, DecodeVarLenData, DecodeVarLenType(DecodeUint32),
      (k: seq<byte>, h: seq<byte>, u: seq<uint32>) => ParentNode(k, h, u))

  lemma Uint32ListRoundTrip(ns: seq<uint32>)
    ensures Decodes(DecodeVarLenType(DecodeUint32), EncodeVarLenType(EncodeUint32, ns), ns)
  {
    forall k | 0 <= k < |ns|
      ensures |EncodeUint32(ns[k])| > 0 && Decodes(DecodeUint32, EncodeUint32(ns[k]), ns[k])
    {
      Uint32RoundTrip(ns[k]);
    }
    VarLenTypeRoundTrip(DecodeUint32, EncodeUint32, ns);
  }

  lemma ParentNodeRoundTrip(n: ParentNode)
    ensures Decodes(DecodeParentNode, EncodeParentNode(n), n)
  {
    VarLenDataRoundTrip(n.hpkePublicKey);
    VarLenDataRoundTrip(n.parentHash);
    Uint32ListRoundTrip(n.unmergedLeaves);
    MapDecoders3Decodes(DecodeVarLenData, DecodeVarLenData, DecodeVarLenType(DecodeUint32),
      (k: seq<byte>, h: seq<byte>, u: seq<uint32>) => ParentNode(k, h, u),
      EncodeVarLenData(n.hpkePublicKey), EncodeVarLenData(n.parentHash), EncodeVarLenType(EncodeUint32, n.unmergedLeaves),
      n.hpkePublicKey, n.parentHash, n.unmergedLeaves);
  }

  /** A field that does not decode makes the whole node fail, whatever follows it. */
  lemma ParentNodeRejectsBadKey(p: seq<byte>)
    requires Rejects(DecodeVarLenData, p)
    ensures Rejects(DecodeParentNode, p)
  {
    forall b: seq<byte>, o: nat | o + |p| <= |b| && b[o..o + |p|] == p
      ensures DecodeParentNode(b, o).None?
    {
      assert DecodeVarLenData(b, o).None?;
    }
  }
}
