/**
 * The sender of a framed message. src/sender.ts is not part of this model;
 * the wire form here is the Sender structure of section 6 of RFC 9420: a
 * one-byte sender type, then a 4-byte leaf index for a member, a 4-byte
 * sender index for an external sender, and nothing for the two new-member
 * kinds.
 */
module Sender {
  import opened Wrappers
  import opened Bytes
  import opened TlsDecoder
  import opened Number

  /** member 1, external 2, new_member_proposal 3, new_member_commit 4 */
  datatype SenderTypeName = MemberType | ExternalType | NewMemberProposalType | NewMemberCommitType

  function SenderTypeValue(t: SenderTypeName): uint8 {
    match t
    case MemberType => 1
    case ExternalType => 2
    case NewMemberProposalType => 3
    case NewMemberCommitType => 4
  }

  function SenderTypeFromValue(n: uint8): (r: Option<SenderTypeName>)
    ensures forall t :: r == Some(t) <==> SenderTypeValue(t) == n
  {
    if n == 1 then Some(MemberType)
    else if n == 2 then Some(ExternalType)
    else if n == 3 then Some(NewMemberProposalType)
    else if n == 4 then Some(NewMemberCommitType)
    else None
  }

  function EncodeSenderType(t: SenderTypeName): seq<byte> {
    EncodeUint8(SenderTypeValue(t))
  }

  const DecodeSenderType: Decoder<SenderTypeName> := MapDecoderOption(DecodeUint8, SenderTypeFromValue)

  /** All four sender types are one byte and read back as themselves. */
  lemma SenderTypeRoundTrip(t: SenderTypeName)
    ensures |EncodeSenderType(t)| == 1
    ensures Decodes(DecodeSenderType, EncodeSenderType(t), t)
  {
    Uint8RoundTrip(SenderTypeValue(t));
    MapDecoderOptionDecodes(DecodeUint8, SenderTypeFromValue, EncodeSenderType(t), SenderTypeValue(t), t);
  }

  datatype Sender =
    | Member(leafIndex: uint32)
    | External(senderIndex: uint32)
    | NewMemberProposal
    | NewMemberCommit

  function SenderTypeOf(s: Sender): SenderTypeName {
    match s
    case Member(_) => MemberType
    case External(_) => ExternalType
    case NewMemberProposal => NewMemberProposalType
    case NewMemberCommit => NewMemberCommitType
  }

  /** The sender type, then the index a member or an external sender carries. */
  function EncodeSender(s: Sender): (r: seq<byte>)
    ensures |r| >= 1 && r[..1] == EncodeSenderType(SenderTypeOf(s))
  {
    match s
    case Member(i) => EncodeSenderType(MemberType) + EncodeUint32(i)
    case External(i) => EncodeSenderType(ExternalType) + EncodeUint32(i)
    case NewMemberProposal => EncodeSenderType(NewMemberProposalType)
    case NewMemberCommit => EncodeSenderType(NewMemberCommitType)
  }

  function SenderBodyDecoder(t: SenderTypeName): Decoder<Sender> {
    match t
    case MemberType => MapDecoder(DecodeUint32, (i: uint32) => Member(i))
    case ExternalType => MapDecoder(DecodeUint32, (i: uint32) => External(i))
    case NewMemberProposalType => SucceedDecoder(NewMemberProposal)
    case NewMemberCommitType => SucceedDecoder(NewMemberCommit)
  }

  const DecodeSender: Decoder<Sender> := FlatMapDecoder(DecodeSenderType, SenderBodyDecoder)

  /** Every sender reads back unchanged. */
  lemma SenderRoundTrip(s: Sender)
    ensures Decodes(DecodeSender, EncodeSender(s), s)
  {
    var t := SenderTypeOf(s);
    SenderTypeRoundTrip(t);
    match s
    case Member(i) =>
      Uint32RoundTrip(i);
      MapDecoderDecodes(DecodeUint32, (i: uint32) => Member(i), EncodeUint32(i), i);
      FlatMapDecoderDecodes(DecodeSenderType, SenderBodyDecoder, EncodeSenderType(t), EncodeUint32(i), t, s);
    case External(i) =>
      Uint32RoundTrip(i);
      MapDecoderDecodes(DecodeUint32, (i: uint32) => External(i), EncodeUint32(i), i);
      FlatMapDecoderDecodes(DecodeSenderType, SenderBodyDecoder, EncodeSenderType(t), EncodeUint32(i), t, s);
    case NewMemberProposal =>
      SucceedDecoderDecodes(s);
      FlatMapDecoderDecodes(DecodeSenderType, SenderBodyDecoder, EncodeSenderType(t), [], t, s);
      assert EncodeSenderType(t) + [] == EncodeSender(s);
    case NewMemberCommit =>
      SucceedDecoderDecodes(s);
      FlatMapDecoderDecodes(DecodeSenderType, SenderBodyDecoder, EncodeSenderType(t), [], t, s);
      assert EncodeSenderType(t) + [] == EncodeSender(s);
  }
}
