/**
 * Framed content, src/framedContent.ts (section 6 of RFC 9420): the
 * content-type-tagged body, the framed content and its codec, the
 * to-be-signed structure with its sender info, the authentication data, and
 * the signature and confirmation-tag operations built on them.
 */
module FramedContent {
  import opened Wrappers
  import opened Bytes
  import opened TlsDecoder
  import opened Number
  import opened VariableLength
  import opened ContentType
  import opened Wireformat
  import opened ProtocolVersion
  import opened GroupContext
  import opened Crypto
  import opened Proposal
  import opened Commit
  import opened Sender

  // ---------------------------------------------------------------------
  // FramedContentInfo: the body selected by the content type
  // ---------------------------------------------------------------------

  datatype FramedContentInfo =
    | ApplicationData(applicationData: seq<byte>)
    | ProposalData(proposal: Proposal)
    | CommitData(commit: Commit)

  function ContentTypeOfInfo(i: FramedContentInfo): ContentTypeName {
    match i
    case ApplicationData(_) => Application
    case ProposalData(_) => ProposalContent
    case CommitData(_) => CommitContent
  }

  /** The body alone: var-len application data, the proposal or the commit. */
  function EncodeFramedContentBody(i: FramedContentInfo): seq<byte> {
    match i
    case ApplicationData(d) => EncodeVarLenData(d)
    case ProposalData(p) => EncodeProposal(p)
    case CommitData(c) => EncodeCommit(c)
  }

  /** The content type, then the body. */
  function EncodeFramedContentInfo(i: FramedContentInfo): seq<byte> {
    EncodeContentType(ContentTypeOfInfo(i)) + EncodeFramedContentBody(i)
  }

  function FramedContentInfoBodyDecoder(t: ContentTypeName): Decoder<FramedContentInfo> {
    match t
    case Application => MapDecoder(DecodeVarLenData, (d: seq<byte>) => ApplicationData(d))
    case ProposalContent => MapDecoder(DecodeProposal, (p: Proposal) => ProposalData(p))
    case CommitContent => MapDecoder(DecodeCommit, (c: Commit) => CommitData(c))
  }

  const DecodeFramedContentInfo: Decoder<FramedContentInfo> := FlatMapDecoder(DecodeContentType, FramedContentInfoBodyDecoder)

  predicate CanonicalFramedContentInfo(i: FramedContentInfo) {
    match i
    case ApplicationData(_) => true
    case ProposalData(p) => CanonicalProposal(p)
    case CommitData(c) => CanonicalCommit(c)
  }

  /** The body reader of a body's own content type reads every canonical body back. */
  lemma FramedContentBodyRoundTrip(i: FramedContentInfo)
    requires CanonicalFramedContentInfo(i)
    ensures Decodes(FramedContentInfoBodyDecoder(ContentTypeOfInfo(i)), EncodeFramedContentBody(i), i)
  {
    match i
    case ApplicationData(d) =>
      VarLenDataRoundTrip(d);
      MapDecoderDecodes(DecodeVarLenData, (d: seq<byte>) => ApplicationData(d), EncodeVarLenData(d), d);
    case ProposalData(p) =>
      ProposalRoundTrip(p);
      MapDecoderDecodes(DecodeProposal, (p: Proposal) => ProposalData(p), EncodeProposal(p), p);
    case CommitData(c) =>
      CommitRoundTrip(c);
      MapDecoderDecodes(DecodeCommit, (c: Commit) => CommitData(c), EncodeCommit(c), c);
  }

  /** The body decoder chosen by the decoded content type reads every canonical body back. */
  lemma FramedContentInfoRoundTrip(i: FramedContentInfo)
    requires CanonicalFramedContentInfo(i)
    ensures Decodes(DecodeFramedContentInfo, EncodeFramedContentInfo(i), i)
  {
    var t := ContentTypeOfInfo(i);
    ContentTypeRoundTrip(t);
    FramedContentBodyRoundTrip(i);
    FlatMapDecoderDecodes(DecodeContentType, FramedContentInfoBodyDecoder, EncodeContentType(t), EncodeFramedContentBody(i), t, i);
  }

  // ---------------------------------------------------------------------
  // FramedContent
  // ---------------------------------------------------------------------

  datatype FramedContent = FramedContent(
    groupId: seq<byte>,
    epoch: uint64,
    sender: Sender,
    authenticatedData: seq<byte>,
    info: FramedContentInfo)

  function ContentTypeOf(c: FramedContent): ContentTypeName {
    ContentTypeOfInfo(c.info)
  }

  predicate CanonicalFramedContent(c: FramedContent) {
    CanonicalFramedContentInfo(c.info)
  }

  /** Var-len group id, 8-byte epoch, sender, var-len authenticated data, then the tagged body. */
  function EncodeFramedContent(c: FramedContent): seq<byte> {
    EncodeVarLenData(c.groupId) + EncodeUint64(c.epoch) + EncodeSender(c.sender)
      + EncodeVarLenData(c.authenticatedData) + EncodeFramedContentInfo(c.info)
  }

  const DecodeFramedContent: Decoder<FramedContent> :=
    MapDecoders5(DecodeVarLenData, DecodeUint64, DecodeSender, DecodeVarLenData, DecodeFramedContentInfo,
      (g: seq<byte>, e: uint64, s: Sender, a: seq<byte>, i: FramedContentInfo) => FramedContent(g, e, s, a, i))

  lemma FramedContentRoundTrip(c: FramedContent)
    requires CanonicalFramedContent(c)
    ensures Decodes(DecodeFramedContent, EncodeFramedContent(c), c)
  {
    VarLenDataRoundTrip(c.groupId);
    Uint64RoundTrip(c.epoch);
    SenderRoundTrip(c.sender);
    VarLenDataRoundTrip(c.authenticatedData);
    FramedContentInfoRoundTrip(c.info);
    MapDecoders5Decodes(DecodeVarLenData, DecodeUint64, DecodeSender, DecodeVarLenData, DecodeFramedContentInfo,
      (g: seq<byte>, e: uint64, s: Sender, a: seq<byte>, i: FramedContentInfo) => FramedContent(g, e, s, a, i),
      EncodeVarLenData(c.groupId), EncodeUint64(c.epoch), EncodeSender(c.sender),
      EncodeVarLenData(c.authenticatedData), EncodeFramedContentInfo(c.info),
      c.groupId, c.epoch, c.sender, c.authenticatedData, c.info);
  }

  // ---------------------------------------------------------------------
  // FramedContentTBS and the sender info
  // ---------------------------------------------------------------------

  /** The group context travels with member and new_member_commit senders only. */
  datatype SenderInfo =
    | MemberInfo(context: GroupContext)
    | NewMemberCommitInfo(context: GroupContext)
    | ExternalInfo
    | NewMemberProposalInfo

  /** The sender info a sender type gets: the context for member and new_member_commit. */
  function SenderInfoFor(t: SenderTypeName, context: GroupContext): SenderInfo {
    match t
    case MemberType => MemberInfo(context)
    case NewMemberCommitType => NewMemberCommitInfo(context)
    case ExternalType => ExternalInfo
    case NewMemberProposalType => NewMemberProposalInfo
  }

  /** The encoded group context, or nothing. */
  function EncodeSenderInfo(si: SenderInfo): seq<byte> {
    match si
    case MemberInfo(gc) => EncodeGroupContext(gc)
    case NewMemberCommitInfo(gc) => EncodeGroupContext(gc)
    case ExternalInfo => []
    case NewMemberProposalInfo => []
  }

  datatype FramedContentTbs = FramedContentTbs(
    protocolVersion: ProtocolVersionName,
    wireformat: WireformatName,
    content: FramedContent,
    senderInfo: SenderInfo)

  /** Version, wireformat, framed content, then the sender info. */
  function EncodeFramedContentTbs(t: FramedContentTbs): seq<byte> {
    EncodeProtocolVersion(t.protocolVersion) + EncodeWireformat(t.wireformat)
      + EncodeFramedContent(t.content) + EncodeSenderInfo(t.senderInfo)
  }

  /** toTbs: the version from the context and the sender info chosen by the content's own sender. */
  function ToTbs(content: FramedContent, wireformat: WireformatName, context: GroupContext): FramedContentTbs {
    FramedContentTbs(context.version, wireformat, content, SenderInfoFor(SenderTypeOf(content.sender), context))
  }

  /** The part of the TBS that ends with the framed content: version, wireformat and content. */
  const DecodeTbsHead: Decoder<(ProtocolVersionName, WireformatName, FramedContent)> :=
    MapDecoders3(DecodeProtocolVersion, DecodeWireformat, DecodeFramedContent,
      (v: ProtocolVersionName, w: WireformatName, c: FramedContent) => (v, w, c))

  lemma TbsHeadRoundTrip(v: ProtocolVersionName, w: WireformatName, c: FramedContent)
    requires CanonicalFramedContent(c)
    ensures Decodes(DecodeTbsHead, EncodeProtocolVersion(v) + EncodeWireformat(w) + EncodeFramedContent(c), (v, w, c))
  {
    ProtocolVersionRoundTrip(v);
    WireformatRoundTrip(w);
    FramedContentRoundTrip(c);
    MapDecoders3Decodes(DecodeProtocolVersion, DecodeWireformat, DecodeFramedContent,
      (v: ProtocolVersionName, w: WireformatName, c: FramedContent) => (v, w, c),
      EncodeProtocolVersion(v), EncodeWireformat(w), EncodeFramedContent(c), v, w, c);
  }

  /**
   * The bytes a framed-content signature covers determine what was signed:
   * the content and the wireformat, and the group context whenever the
   * sender is a member or a new member committing.
   */
  lemma TbsBindsContent(c1: FramedContent, w1: WireformatName, x1: GroupContext,
                        c2: FramedContent, w2: WireformatName, x2: GroupContext)
    requires CanonicalFramedContent(c1) && CanonicalFramedContent(c2)
    requires CanonicalGroupContext(x1) && CanonicalGroupContext(x2)
    requires EncodeFramedContentTbs(ToTbs(c1, w1, x1)) == EncodeFramedContentTbs(ToTbs(c2, w2, x2))
    ensures c1 == c2 && w1 == w2
    ensures SenderTypeOf(c1.sender) == MemberType || SenderTypeOf(c1.sender) == NewMemberCommitType ==> x1 == x2
  {
    TbsHeadsAgree(c1, w1, x1, c2, w2, x2);
    if SenderTypeOf(c1.sender) == MemberType || SenderTypeOf(c1.sender) == NewMemberCommitType {
      assert EncodeGroupContext(x1) == EncodeGroupContext(x2);
      GroupContextEncodingInjective(x1, x2);
    }
  }

  /** Equal TBS encodings have equal heads and equal encoded sender infos. */
  lemma TbsHeadsAgree(c1: FramedContent, w1: WireformatName, x1: GroupContext,
                      c2: FramedContent, w2: WireformatName, x2: GroupContext)
    requires CanonicalFramedContent(c1) && CanonicalFramedContent(c2)
    requires EncodeFramedContentTbs(ToTbs(c1, w1, x1)) == EncodeFramedContentTbs(ToTbs(c2, w2, x2))
    ensures c1 == c2 && w1 == w2
    ensures EncodeSenderInfo(ToTbs(c1, w1, x1).senderInfo) == EncodeSenderInfo(ToTbs(c2, w2, x2).senderInfo)
  {
    var h1 := EncodeProtocolVersion(x1.version) + EncodeWireformat(w1) + EncodeFramedContent(c1);
    var h2 := EncodeProtocolVersion(x2.version) + EncodeWireformat(w2) + EncodeFramedContent(c2);
    TbsHeadRoundTrip(x1.version, w1, c1);
    TbsHeadRoundTrip(x2.version, w2, c2);
    var s1 := EncodeSenderInfo(ToTbs(c1, w1, x1).senderInfo);
    var s2 := EncodeSenderInfo(ToTbs(c2, w2, x2).senderInfo);
    DecodesPrefixUnique(DecodeTbsHead, h1, (x1.version, w1, c1), s1, h2, (x2.version, w2, c2), s2);
  }

  // ---------------------------------------------------------------------
  // FramedContentAuthData
  // ---------------------------------------------------------------------

  /** The signature, plus the confirmation tag for a commit. */
  datatype FramedContentAuthData =
    | AuthCommit(signature: seq<byte>, confirmationTag: seq<byte>)
    | AuthApplicationOrProposal(signature: seq<byte>, contentType: ContentTypeName)

  /** The non-commit variant carries application or proposal only. */
  predicate WellFormedAuthData(a: FramedContentAuthData) {
    a.AuthApplicationOrProposal? ==> a.contentType != CommitContent
  }

  function AuthContentType(a: FramedContentAuthData): ContentTypeName {
    if a.AuthCommit? then CommitContent else a.contentType
  }

  /** The var-len signature; a commit appends the var-len confirmation tag. */
  function EncodeFramedContentAuthData(a: FramedContentAuthData): seq<byte> {
    match a
    case AuthCommit(s, tag) => EncodeVarLenData(s) + EncodeVarLenData(tag)
    case AuthApplicationOrProposal(s, _) => EncodeVarLenData(s)
  }

  const DecodeFramedContentAuthDataCommit: Decoder<FramedContentAuthData> :=
    MapDecoders2(DecodeVarLenData, DecodeVarLenData, (s: seq<byte>, tag: seq<byte>) => AuthCommit(s, tag))

  /** decodeFramedContentAuthData: the reader is chosen by the content type decoded before it. */
  function DecodeFramedContentAuthData(t: ContentTypeName): Decoder<FramedContentAuthData> {
    match t
    case CommitContent => DecodeFramedContentAuthDataCommit
    case _ => MapDecoder(DecodeVarLenData, (s: seq<byte>) => AuthApplicationOrProposal(s, t))
  }

  /** Auth data reads back with the reader its own content type selects. */
  lemma AuthDataRoundTrip(a: FramedContentAuthData)
    requires WellFormedAuthData(a)
    ensures Decodes(DecodeFramedContentAuthData(AuthContentType(a)), EncodeFramedContentAuthData(a), a)
  {
    match a
    case AuthCommit(s, tag) =>
      VarLenDataRoundTrip(s);
      VarLenDataRoundTrip(tag);
      MapDecoders2Decodes(DecodeVarLenData, DecodeVarLenData, (s: seq<byte>, tag: seq<byte>) => AuthCommit(s, tag),
        EncodeVarLenData(s), EncodeVarLenData(tag), s, tag);
    case AuthApplicationOrProposal(s, t) =>
      VarLenDataRoundTrip(s);
      MapDecoderDecodes(DecodeVarLenData, (s: seq<byte>) => AuthApplicationOrProposal(s, t), EncodeVarLenData(s), s);
  }

  /**
   * A non-commit reader stops after the signature: application and proposal
   * auth data is the var-len signature and nothing else, whatever follows.
   */
  lemma NonCommitAuthIsSignatureOnly(t: ContentTypeName, s: seq<byte>)
    requires t != CommitContent
    ensures Decodes(DecodeFramedContentAuthData(t), EncodeVarLenData(s), AuthApplicationOrProposal(s, t))
  {
    AuthDataRoundTrip(AuthApplicationOrProposal(s, t));
  }

  // ---------------------------------------------------------------------
  // Signatures and the confirmation tag
  // ---------------------------------------------------------------------

  const FramedContentTbsLabel := "FramedContentTBS"

  /** signFramedContentTBS: signWithLabel over the encoded TBS. */
  function SignFramedContentTbs(s: SignatureScheme, signKey: seq<byte>, tbs: FramedContentTbs): seq<byte> {
    SignWithLabel(s, signKey, FramedContentTbsLabel, EncodeFramedContentTbs(tbs))
  }

  /** verifyFramedContentSignature: rebuild the TBS with toTbs and check the auth signature over it. */
  function VerifyFramedContentSignature(s: SignatureScheme, signKey: seq<byte>, wireformat: WireformatName,
    content: FramedContent, auth: FramedContentAuthData, context: GroupContext): bool
  {
    VerifyWithLabel(s, signKey, FramedContentTbsLabel, EncodeFramedContentTbs(ToTbs(content, wireformat, context)), auth.signature)
  }

  /** signFramedContentApplicationOrProposal: the signature paired with the content's own type. */
  function SignFramedContentApplicationOrProposal(s: SignatureScheme, signKey: seq<byte>, tbs: FramedContentTbs): (r: FramedContentAuthData)
    requires ContentTypeOf(tbs.content) != CommitContent
    ensures WellFormedAuthData(r) && AuthContentType(r) == ContentTypeOf(tbs.content)
  {
    AuthApplicationOrProposal(SignFramedContentTbs(s, signKey, tbs), ContentTypeOf(tbs.content))
  }

  /** Content signed over its own toTbs verifies for the matching public key. */
  lemma SignedContentVerifies(s: SignatureScheme, publicKey: seq<byte>, privateKey: seq<byte>,
    content: FramedContent, wireformat: WireformatName, context: GroupContext)
    requires SignatureConsistent(s, publicKey, privateKey)
    requires ContentTypeOf(content) != CommitContent
    ensures VerifyFramedContentSignature(s, publicKey, wireformat, content,
      SignFramedContentApplicationOrProposal(s, privateKey, ToTbs(content, wireformat, context)), context)
  {
    SignThenVerify(s, publicKey, privateKey, FramedContentTbsLabel, EncodeFramedContentTbs(ToTbs(content, wireformat, context)));
  }

  /** The TBS createContentCommitSignature signs: sender info fixed to a member's. */
  function CommitTbs(groupContext: GroupContext, wireformat: WireformatName, c: Commit, sender: Sender, authenticatedData: seq<byte>): FramedContentTbs {
    FramedContentTbs(groupContext.version, wireformat,
      FramedContent(groupContext.groupId, groupContext.epoch, sender, authenticatedData, CommitData(c)),
      MemberInfo(groupContext))
  }

  /**
   * createContentCommitSignature: the commit framed with the context's group
   * id and epoch, and the signature over the member-sender TBS.
   */
  function CreateContentCommitSignature(groupContext: GroupContext, wireformat: WireformatName, c: Commit, sender: Sender,
    authenticatedData: seq<byte>, signKey: seq<byte>, s: SignatureScheme): (r: (FramedContent, seq<byte>))
    ensures r.0.groupId == groupContext.groupId && r.0.epoch == groupContext.epoch
    ensures r.0.sender == sender && r.0.authenticatedData == authenticatedData && r.0.info == CommitData(c)
  {
    var tbs := CommitTbs(groupContext, wireformat, c, sender, authenticatedData);
    (tbs.content, SignFramedContentTbs(s, signKey, tbs))
  }

  /**
   * A commit signature verifies against the receiver's toTbs for the member
   * and new_member_commit senders, the two that commit: both put the group
   * context into the signed bytes, as the fixed member sender info does.
   */
  lemma CommitSignatureVerifies(groupContext: GroupContext, wireformat: WireformatName, c: Commit, sender: Sender,
    authenticatedData: seq<byte>, s: SignatureScheme, publicKey: seq<byte>, privateKey: seq<byte>, confirmationTag: seq<byte>)
    requires SignatureConsistent(s, publicKey, privateKey)
    requires sender.Member? || sender.NewMemberCommit?
    ensures var r := CreateContentCommitSignature(groupContext, wireformat, c, sender, authenticatedData, privateKey, s);
      VerifyFramedContentSignature(s, publicKey, wireformat, r.0, AuthCommit(r.1, confirmationTag), groupContext)
  {
    var tbs := CommitTbs(groupContext, wireformat, c, sender, authenticatedData);
    assert EncodeFramedContentTbs(ToTbs(tbs.content, wireformat, groupContext)) == EncodeFramedContentTbs(tbs);
    SignThenVerify(s, publicKey, privateKey, FramedContentTbsLabel, EncodeFramedContentTbs(tbs));
  }

  /**
   * For an external or new_member_proposal sender the bytes signed and the
   * bytes the receiver rebuilds differ: the signed ones carry the group
   * context, the rebuilt ones do not.
   */
  lemma CommitTbsDiffersForOtherSenders(groupContext: GroupContext, wireformat: WireformatName, c: Commit, sender: Sender,
    authenticatedData: seq<byte>)
    requires sender.External? || sender.NewMemberProposal?
    ensures var tbs := CommitTbs(groupContext, wireformat, c, sender, authenticatedData);
      EncodeFramedContentTbs(tbs) != EncodeFramedContentTbs(ToTbs(tbs.content, wireformat, groupContext))
  {
    ProtocolVersionRoundTrip(groupContext.version);
    assert |EncodeGroupContext(groupContext)| >= |EncodeProtocolVersion(groupContext.version)|;
  }

  /** createConfirmationTag: the MAC of the confirmed transcript hash under the confirmation key. */
  function CreateConfirmationTag(h: Hash, confirmationKey: seq<byte>, confirmedTranscriptHash: seq<byte>): seq<byte> {
    h.mac(confirmationKey, confirmedTranscriptHash)
  }

  /** verifyConfirmationTag: MAC verification over the same key and transcript hash. */
  function VerifyConfirmationTag(h: Hash, confirmationKey: seq<byte>, tag: seq<byte>, confirmedTranscriptHash: seq<byte>): bool {
    h.verifyMac(confirmationKey, tag, confirmedTranscriptHash)
  }

  /** A tag created for a transcript hash verifies for it. */
  lemma ConfirmationTagVerifies(h: Hash, confirmationKey: seq<byte>, confirmedTranscriptHash: seq<byte>)
    requires MacConsistent(h)
    ensures VerifyConfirmationTag(h, confirmationKey, CreateConfirmationTag(h, confirmationKey, confirmedTranscriptHash), confirmedTranscriptHash)
  {
  }
}
