/**
 * Public-message protection, src/messageProtectionPublic.ts: signing
 * proposals and commits into a PublicMessage, the membership tag of member
 * senders, and the checks made on receipt.
 */
module MessageProtectionPublic {
  import opened Wrappers
  import opened Bytes
  import opened ContentType
  import opened Wireformat
  import opened Crypto
  import opened RatchetTree
  import opened GroupContext
  import opened Proposal
  import opened Sender
  import opened FramedContent
  import opened AuthenticatedContent
  import opened PublicMessage

  /** The data a membership tag covers: the content's public-message TBS and its auth data. */
  function PublicTbm(content: FramedContent, auth: FramedContentAuthData, groupContext: GroupContext): AuthenticatedContentTbm {
    AuthenticatedContentTbm(ToTbs(content, MlsPublicMessage, groupContext), auth)
  }

  /**
   * protectPublicMessage: application content cannot be public (a
   * UsageError); a member sender's message carries a membership tag over
   * the TBS and the auth data, any other sender's message only its sender
   * type.
   */
  function ProtectPublicMessage(membershipKey: seq<byte>, groupContext: GroupContext, content: AuthenticatedContent, cs: CiphersuiteImpl)
    : (r: Result<PublicMessage>)
    ensures ContentTypeOf(content.content) == Application <==> r == Err(UsageError)
    ensures r.Ok? ==>
      r.value.content == content.content && r.value.auth == content.auth
      && WellFormedInfo(r.value.info) && InfoSenderType(r.value.info) == SenderTypeOf(content.content.sender)
    ensures r.Ok? && content.content.sender.Member? ==>
      r.value.info == MemberTag(CreateMembershipTag(cs.hash, membershipKey, PublicTbm(content.content, content.auth, groupContext)))
  {
    if ContentTypeOf(content.content) == Application then Err(UsageError)
    else if content.content.sender.Member? then
      var tag := CreateMembershipTag(cs.hash, membershipKey, PublicTbm(content.content, content.auth, groupContext));
      Ok(PublicMessage(content.content, content.auth, MemberTag(tag)))
    else Ok(PublicMessage(content.content, content.auth, OtherSender(SenderTypeOf(content.content.sender))))
  }

  /** The key the content must be signed with: the override when one is given, else the one the sender resolves to. */
  function PublicSignatureKey(overrideSignatureKey: Option<seq<byte>>, ratchetTree: RatchetTree, groupContext: GroupContext,
    content: FramedContent): (r: Result<seq<byte>>)
    ensures overrideSignatureKey.Some? ==> r == Ok(overrideSignatureKey.value)
    ensures overrideSignatureKey.None? ==> r == FindSignaturePublicKey(ratchetTree, groupContext, content)
  {
    if overrideSignatureKey.Some? then Ok(overrideSignatureKey.value)
    else FindSignaturePublicKey(ratchetTree, groupContext, content)
  }

  /**
   * unprotectPublicMessage: application content is a UsageError; a
   * message marked as from a member must carry a membership tag that
   * verifies, and every message a signature that verifies under the
   * signature key, a CryptoVerificationError otherwise.
   */
  function UnprotectPublicMessage(membershipKey: seq<byte>, groupContext: GroupContext, ratchetTree: RatchetTree, msg: PublicMessage,
    cs: CiphersuiteImpl, overrideSignatureKey: Option<seq<byte>>): (r: Result<AuthenticatedContent>)
    ensures ContentTypeOf(msg.content) == Application ==> r == Err(UsageError)
    ensures ContentTypeOf(msg.content) != Application && msg.info.MemberTag?
      && !VerifyMembershipTag(cs.hash, membershipKey, PublicTbm(msg.content, msg.auth, groupContext), msg.info.membershipTag)
      ==> r == Err(CryptoVerificationError)
    ensures r.Ok? <==>
      (ContentTypeOf(msg.content) != Application
       && (msg.info.MemberTag? ==> VerifyMembershipTag(cs.hash, membershipKey, PublicTbm(msg.content, msg.auth, groupContext), msg.info.membershipTag))
       && PublicSignatureKey(overrideSignatureKey, ratchetTree, groupContext, msg.content).Ok?
       && VerifyFramedContentSignature(cs.signature, PublicSignatureKey(overrideSignatureKey, ratchetTree, groupContext, msg.content).value,
         MlsPublicMessage, msg.content, msg.auth, groupContext))
    ensures r.Ok? ==> r.value == AuthenticatedContent(MlsPublicMessage, msg.content, msg.auth)
  {
    if ContentTypeOf(msg.content) == Application then Err(UsageError)
    else if msg.info.MemberTag? && !VerifyMembershipTag(cs.hash, membershipKey, PublicTbm(msg.content, msg.auth, groupContext), msg.info.membershipTag) then
      Err(CryptoVerificationError)
    else
      var key := PublicSignatureKey(overrideSignatureKey, ratchetTree, groupContext, msg.content);
      if key.Err? then Err(key.error)
      else if !VerifyFramedContentSignature(cs.signature, key.value, MlsPublicMessage, msg.content, msg.auth, groupContext) then
        Err(CryptoVerificationError)
      else Ok(AuthenticatedContent(MlsPublicMessage, msg.content, msg.auth))
  }

  /** The proposal content a sender sends in the group context's epoch. */
  function ProposalContentFrom(groupContext: GroupContext, sender: Sender, authenticatedData: seq<byte>, proposal: Proposal): FramedContent {
    FramedContent(groupContext.groupId, groupContext.epoch, sender, authenticatedData, ProposalData(proposal))
  }

  /** The signature over a content's public-message TBS. */
  function SignPublicContent(signKey: seq<byte>, groupContext: GroupContext, content: FramedContent, cs: CiphersuiteImpl): FramedContentAuthData
    requires ContentTypeOf(content) != CommitContent
  {
    SignFramedContentApplicationOrProposal(cs.signature, signKey, ToTbs(content, MlsPublicMessage, groupContext))
  }

  /**
   * protectProposalPublic: a member's signed proposal, with its membership tag.
   * What the receiver makes of it is PublicProposalUnprotects below.
   */
  function ProtectProposalPublic(signKey: seq<byte>, membershipKey: seq<byte>, groupContext: GroupContext, authenticatedData: seq<byte>,
    proposal: Proposal, leafIndex: uint32, cs: CiphersuiteImpl): (r: PublicMessage)
    ensures r.content == ProposalContentFrom(groupContext, Member(leafIndex), authenticatedData, proposal)
    ensures r.info.MemberTag?
  {
    var content := ProposalContentFrom(groupContext, Member(leafIndex), authenticatedData, proposal);
    var auth := SignPublicContent(signKey, groupContext, content, cs);
    var protected := ProtectPublicMessage(membershipKey, groupContext, AuthenticatedContent(MlsPublicMessage, content, auth), cs);
    protected.value
  }

  /**
   * protectExternalProposalPublic: a proposal signed by an external sender
   * or a new member, framed with no membership tag and the sender's type.
   */
  function ProtectExternalProposalPublic(signKey: seq<byte>, groupContext: GroupContext, authenticatedData: seq<byte>, proposal: Proposal,
    sender: Sender, cs: CiphersuiteImpl): (r: PublicMessage)
    requires sender.External? || sender.NewMemberProposal?
    ensures r.content == ProposalContentFrom(groupContext, sender, authenticatedData, proposal)
    ensures r.info == OtherSender(SenderTypeOf(sender)) && WellFormedInfo(r.info)
  {
    var content := ProposalContentFrom(groupContext, sender, authenticatedData, proposal);
    PublicMessage(content, SignPublicContent(signKey, groupContext, content, cs), OtherSender(SenderTypeOf(sender)))
  }

  // ---------------------------------------------------------------------
  // Protect, then unprotect
  // ---------------------------------------------------------------------

  /**
   * A member's public proposal passes the receiver's membership-tag and
   * signature checks when both share the membership key and the receiver's
   * tree holds the member's leaf with the matching public key.
   */
  lemma PublicProposalUnprotects(signKey: seq<byte>, publicKey: seq<byte>, membershipKey: seq<byte>, groupContext: GroupContext,
    ratchetTree: RatchetTree, authenticatedData: seq<byte>, proposal: Proposal, leafIndex: uint32, cs: CiphersuiteImpl)
    requires MacConsistent(cs.hash) && SignatureConsistent(cs.signature, publicKey, signKey)
    requires GetSignaturePublicKeyFromLeafIndex(ratchetTree, leafIndex as nat) == Ok(publicKey)
    ensures var msg := ProtectProposalPublic(signKey, membershipKey, groupContext, authenticatedData, proposal, leafIndex, cs);
      UnprotectPublicMessage(membershipKey, groupContext, ratchetTree, msg, cs, None)
        == Ok(AuthenticatedContent(MlsPublicMessage, msg.content, msg.auth))
  {
    var content := ProposalContentFrom(groupContext, Member(leafIndex), authenticatedData, proposal);
    var auth := SignPublicContent(signKey, groupContext, content, cs);
    MembershipTagVerifies(cs.hash, membershipKey, PublicTbm(content, auth, groupContext));
    SignedContentVerifies(cs.signature, publicKey, signKey, content, MlsPublicMessage, groupContext);
  }

  /**
   * Any member's public message, proposal or commit, passes the receiver's
   * checks when both share the membership key and its signature verifies
   * under the key of the sender's leaf in the receiver's tree.
   */
  lemma MemberMessageUnprotects(membershipKey: seq<byte>, groupContext: GroupContext, ratchetTree: RatchetTree, content: FramedContent,
    auth: FramedContentAuthData, publicKey: seq<byte>, cs: CiphersuiteImpl)
    requires MacConsistent(cs.hash) && content.sender.Member? && ContentTypeOf(content) != Application
    requires GetSignaturePublicKeyFromLeafIndex(ratchetTree, content.sender.leafIndex as nat) == Ok(publicKey)
    requires VerifyFramedContentSignature(cs.signature, publicKey, MlsPublicMessage, content, auth, groupContext)
    ensures var p := ProtectPublicMessage(membershipKey, groupContext, AuthenticatedContent(MlsPublicMessage, content, auth), cs);
      p.Ok? && UnprotectPublicMessage(membershipKey, groupContext, ratchetTree, p.value, cs, None).Ok?
  {
    MembershipTagVerifies(cs.hash, membershipKey, PublicTbm(content, auth, groupContext));
  }

  /**
   * An external proposal passes the receiver's checks, with no membership
   * tag to verify, whenever the key the sender resolves to at the receiver
   * is the signer's public key.
   */
  lemma ExternalProposalUnprotects(signKey: seq<byte>, publicKey: seq<byte>, membershipKey: seq<byte>, groupContext: GroupContext,
    ratchetTree: RatchetTree, authenticatedData: seq<byte>, proposal: Proposal, sender: Sender, cs: CiphersuiteImpl)
    requires sender.External? || sender.NewMemberProposal?
    requires SignatureConsistent(cs.signature, publicKey, signKey)
    requires FindSignaturePublicKey(ratchetTree, groupContext, ProposalContentFrom(groupContext, sender, authenticatedData, proposal)) == Ok(publicKey)
    ensures var msg := ProtectExternalProposalPublic(signKey, groupContext, authenticatedData, proposal, sender, cs);
      UnprotectPublicMessage(membershipKey, groupContext, ratchetTree, msg, cs, None)
        == Ok(AuthenticatedContent(MlsPublicMessage, msg.content, msg.auth))
  {
    var content := ProposalContentFrom(groupContext, sender, authenticatedData, proposal);
    SignedContentVerifies(cs.signature, publicKey, signKey, content, MlsPublicMessage, groupContext);
  }

  /**
   * A new member's add proposal resolves, at any receiver, to the key of
   * the key package it adds, so it passes when that package carries the
   * signer's public key.
   */
  lemma NewMemberAddUnprotects(signKey: seq<byte>, membershipKey: seq<byte>, groupContext: GroupContext, ratchetTree: RatchetTree,
    authenticatedData: seq<byte>, proposal: Proposal, cs: CiphersuiteImpl)
    requires proposal.ProposalAdd?
    requires SignatureConsistent(cs.signature, proposal.keyPackage.leafNode.data.signaturePublicKey, signKey)
    ensures var msg := ProtectExternalProposalPublic(signKey, groupContext, authenticatedData, proposal, NewMemberProposal, cs);
      UnprotectPublicMessage(membershipKey, groupContext, ratchetTree, msg, cs, None).Ok?
  {
    ExternalProposalUnprotects(signKey, proposal.keyPackage.leafNode.data.signaturePublicKey, membershipKey, groupContext, ratchetTree,
      authenticatedData, proposal, NewMemberProposal, cs);
  }
}
