/** A proposal inline or by reference, src/proposalOrRefType.ts (section 12.4 of RFC 9420). */
module ProposalOrRef {
  import opened Wrappers
  import opened Bytes
  import opened TlsDecoder
  import opened Number
  import opened VariableLength
  import opened Proposal

  /** proposal 1, reference 2 */
  datatype ProposalOrRefTypeName = ProposalTag | ReferenceTag

  function ProposalOrRefTypeValue(t: ProposalOrRefTypeName): uint8 {
    match t
    case ProposalTag => 1
    case ReferenceTag => 2
  }

  function ProposalOrRefTypeFromValue(n: uint8): (r: Option<ProposalOrRefTypeName>)
    ensures forall t :: r == Some(t) <==> ProposalOrRefTypeValue(t) == n
  {
    if n == 1 then Some(ProposalTag) else if n == 2 then Some(ReferenceTag) else None
  }

  function EncodeProposalOrRefType(t: ProposalOrRefTypeName): seq<byte> {
    EncodeUint8(ProposalOrRefTypeValue(t))
  }

  const DecodeProposalOrRefType: Decoder<ProposalOrRefTypeName> := MapDecoderOption(DecodeUint8, ProposalOrRefTypeFromValue)

  lemma ProposalOrRefTypeRoundTrip(t: ProposalOrRefTypeName)
    ensures |EncodeProposalOrRefType(t)| == 1
    ensures Decodes(DecodeProposalOrRefType, EncodeProposalOrRefType(t), t)
  {
    Uint8RoundTrip(ProposalOrRefTypeValue(t));
    MapDecoderOptionDecodes(DecodeUint8, ProposalOrRefTypeFromValue, EncodeProposalOrRefType(t), ProposalOrRefTypeValue(t), t);
  }

  /** A tag other than 1 and 2 is a decode failure. */
  lemma ProposalOrRefTypeUnknownRejected(n: uint8)
    requires n != 1 && n != 2
    ensures Rejects(DecodeProposalOrRefType, EncodeUint8(n))
  {
    Uint8RoundTrip(n);
    MapDecoderOptionRejects(DecodeUint8, ProposalOrRefTypeFromValue, EncodeUint8(n), n);
  }

  datatype ProposalOrRef = Inline(proposal: Proposal) | Reference(reference: seq<byte>)

  function TagOf(p: ProposalOrRef): ProposalOrRefTypeName {
    if p.Inline? then ProposalTag else ReferenceTag
  }

  /** The tag, then the proposal or the var-len reference. */
  function EncodeProposalOrRef(p: ProposalOrRef): (r: seq<byte>)
    ensures |r| >= 1 && r[..1] == EncodeProposalOrRefType(TagOf(p))
  {
    match p
    case Inline(q) => EncodeProposalOrRefType(ProposalTag) + EncodeProposal(q)
    case Reference(ref) => EncodeProposalOrRefType(ReferenceTag) + EncodeVarLenData(ref)
  }

  function ProposalOrRefBodyDecoder(t: ProposalOrRefTypeName): Decoder<ProposalOrRef> {
    match t
    case ProposalTag => MapDecoder(DecodeProposal, (q: Proposal) => Inline(q))
    case ReferenceTag => MapDecoder(DecodeVarLenData, (ref: seq<byte>) => Reference(ref))
  }

  const DecodeProposalOrRef: Decoder<ProposalOrRef> := FlatMapDecoder(DecodeProposalOrRefType, ProposalOrRefBodyDecoder)

  predicate CanonicalProposalOrRef(p: ProposalOrRef) {
    p.Inline? ==> CanonicalProposal(p.proposal)
  }

  lemma ProposalOrRefRoundTrip(p: ProposalOrRef)
    requires CanonicalProposalOrRef(p)
    ensures |EncodeProposalOrRef(p)| > 0
    ensures Decodes(DecodeProposalOrRef, EncodeProposalOrRef(p), p)
  {
    var t := TagOf(p);
    ProposalOrRefTypeRoundTrip(t);
    match p
    case Inline(q) =>
      ProposalRoundTrip(q);
      MapDecoderDecodes(DecodeProposal, (q: Proposal) => Inline(q), EncodeProposal(q), q);
      FlatMapDecoderDecodes(DecodeProposalOrRefType, ProposalOrRefBodyDecoder, EncodeProposalOrRefType(t), EncodeProposal(q), t, p);
    case Reference(ref) =>
      VarLenDataRoundTrip(ref);
      MapDecoderDecodes(DecodeVarLenData, (ref: seq<byte>) => Reference(ref), EncodeVarLenData(ref), ref);
      FlatMapDecoderDecodes(DecodeProposalOrRefType, ProposalOrRefBodyDecoder, EncodeProposalOrRefType(t), EncodeVarLenData(ref), t, p);
  }

  lemma ProposalOrRefsRoundTrip(ps: seq<ProposalOrRef>)
    requires forall i :: 0 <= i < |ps| ==> CanonicalProposalOrRef(ps[i])
    ensures Decodes(DecodeVarLenType(DecodeProposalOrRef), EncodeVarLenType(EncodeProposalOrRef, ps), ps)
  {
    forall k | 0 <= k < |ps|
      ensures |EncodeProposalOrRef(ps[k])| > 0 && Decodes(DecodeProposalOrRef, EncodeProposalOrRef(ps[k]), ps[k])
    {
      ProposalOrRefRoundTrip(ps[k]);
    }
    VarLenTypeRoundTrip(DecodeProposalOrRef, EncodeProposalOrRef, ps);
  }
}
