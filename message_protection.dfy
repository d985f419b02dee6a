/**
 * Private-message protection, src/messageProtection.ts: signing and
 * encrypting application data and proposals into a PrivateMessage, and
 * decrypting and checking one on receipt.
 */
module MessageProtection {
  import opened Wrappers
  import opened Bytes
  import opened ContentType
  import opened Wireformat
  import opened Crypto
  import opened TreeMath
  import opened RatchetTree
  import opened GroupContext
  import opened Proposal
  import opened Sender
  import opened FramedContent
  import opened AuthenticatedContent
  import opened PrivateMessage
  import opened SecretTree

  // ---------------------------------------------------------------------
  // protect
  // ---------------------------------------------------------------------

  datatype ProtectResult<N> = ProtectResult(privateMessage: PrivateMessage, tree: SecretTree<N>)

  /** The node index of a member's leaf. */
  function LeafNodeIndex(leafIndex: uint32): NodeIndex {
    LeafToNodeIndex(leafIndex as nat)
  }

  /**
   * protect: consume the sender's ratchet, encrypt the content under the
   * content AAD, then encrypt the sender data under the sender-data AAD and
   * a key drawn from the content ciphertext. An InternalError when the
   * secret tree holds no node for the sender's leaf; a failure of the
   * ratchet is passed on.
   */
  function Protect<N>(senderDataSecret: seq<byte>, authenticatedData: seq<byte>, groupContext: GroupContext,
    secretTree: SecretTree<N>, content: PrivateMessageContent, leafIndex: uint32, ops: SecretTreeOps<N>, cs: CiphersuiteImpl)
    : (r: Result<ProtectResult<N>>)
    ensures SecretNodeAt(secretTree, LeafNodeIndex(leafIndex)).None? ==> r == Err(InternalError)
    ensures SecretNodeAt(secretTree, LeafNodeIndex(leafIndex)).Some? ==>
      var consumed := ops.consumeRatchet(secretTree, LeafNodeIndex(leafIndex), ContentTypeOfInfo(content.info));
      (consumed.Err? ==> r == Err(consumed.error))
      && (consumed.Ok? ==> r.Ok? && r.value.tree == consumed.value.newTree)
    ensures r.Ok? ==>
      var m := r.value.privateMessage;
      var consumed := ops.consumeRatchet(secretTree, LeafNodeIndex(leafIndex), ContentTypeOfInfo(content.info)).value;
      m.groupId == groupContext.groupId && m.epoch == groupContext.epoch
      && m.contentType == ContentTypeOfInfo(content.info) && m.authenticatedData == authenticatedData
      && m.ciphertext
        == cs.hpke.encryptAead(consumed.key, consumed.nonce, EncodePrivateContentAad(ContentAadOf(m)), EncodePrivateMessageContent(content))
      && m.encryptedSenderData
        == EncryptSenderData(senderDataSecret, SenderData(leafIndex, consumed.generation, consumed.reuseGuard), SenderDataAadOf(m), m.ciphertext, cs)
  {
    var nodeIndex := LeafNodeIndex(leafIndex);
    if SecretNodeAt(secretTree, nodeIndex).None? then Err(InternalError)
    else
      var t := ContentTypeOfInfo(content.info);
      var consumed := ops.consumeRatchet(secretTree, nodeIndex, t);
      if consumed.Err? then Err(consumed.error)
      else
        var c := consumed.value;
        var aad := PrivateContentAad(groupContext.groupId, groupContext.epoch, t, authenticatedData);
        var ciphertext := cs.hpke.encryptAead(c.key, c.nonce, EncodePrivateContentAad(aad), EncodePrivateMessageContent(content));
        var senderData := SenderData(leafIndex, c.generation, c.reuseGuard);
        var senderAad := SenderDataAad(groupContext.groupId, groupContext.epoch, t);
        var encryptedSenderData := EncryptSenderData(senderDataSecret, senderData, senderAad, ciphertext, cs);
        Ok(ProtectResult(PrivateMessage(groupContext.groupId, groupContext.epoch, t, authenticatedData, encryptedSenderData, ciphertext), c.newTree))
  }

  /** The framed content a member at `leafIndex` sends in the group context's epoch. */
  function MemberContent(groupContext: GroupContext, leafIndex: uint32, authenticatedData: seq<byte>, info: FramedContentInfo): FramedContent {
    FramedContent(groupContext.groupId, groupContext.epoch, Member(leafIndex), authenticatedData, info)
  }

  /** The signature over the member content's TBS for a private message. */
  function SignPrivateContent(signKey: seq<byte>, groupContext: GroupContext, content: FramedContent, cs: CiphersuiteImpl): FramedContentAuthData
    requires ContentTypeOf(content) != CommitContent
  {
    SignFramedContentApplicationOrProposal(cs.signature, signKey, ToTbs(content, MlsPrivateMessage, groupContext))
  }

  /**
   * The common part of protectApplicationData and protectProposal: build
   * the member content, sign it as a private message, and protect it with
   * the padding the padding configuration chooses.
   */
  function ProtectSigned<N>(signKey: seq<byte>, senderDataSecret: seq<byte>, info: FramedContentInfo, authenticatedData: seq<byte>,
    groupContext: GroupContext, secretTree: SecretTree<N>, leafIndex: uint32, padding: nat, ops: SecretTreeOps<N>, cs: CiphersuiteImpl)
    : (r: Result<ProtectResult<N>>)
    requires ContentTypeOfInfo(info) != CommitContent
    ensures r.Err? <==> (SecretNodeAt(secretTree, LeafNodeIndex(leafIndex)).None?
      || ops.consumeRatchet(secretTree, LeafNodeIndex(leafIndex), ContentTypeOfInfo(info)).Err?)
    ensures r.Ok? ==> r.value.privateMessage.contentType == ContentTypeOfInfo(info)
  {
    var content := MemberContent(groupContext, leafIndex, authenticatedData, info);
    var auth := SignPrivateContent(signKey, groupContext, content, cs);
    Protect(senderDataSecret, authenticatedData, groupContext, secretTree, PrivateMessageContent(info, auth, padding), leafIndex, ops, cs)
  }

  datatype ProtectApplicationDataResult<N> = ProtectApplicationDataResult(privateMessage: PrivateMessage, newSecretTree: SecretTree<N>)

  /**
   * protectApplicationData: application data from a member, as a private
   * message. What the receiver reads back is ApplicationDataUnprotects below.
   */
  function ProtectApplicationData<N>(signKey: seq<byte>, senderDataSecret: seq<byte>, applicationData: seq<byte>, authenticatedData: seq<byte>,
    groupContext: GroupContext, secretTree: SecretTree<N>, leafIndex: uint32, padding: nat, ops: SecretTreeOps<N>, cs: CiphersuiteImpl)
    : (r: Result<ProtectApplicationDataResult<N>>)
    ensures r.Err? <==> (SecretNodeAt(secretTree, LeafNodeIndex(leafIndex)).None?
      || ops.consumeRatchet(secretTree, LeafNodeIndex(leafIndex), Application).Err?)
    ensures r.Ok? ==> r.value.privateMessage.contentType == Application
  {
    var p := ProtectSigned(signKey, senderDataSecret, ApplicationData(applicationData), authenticatedData, groupContext, secretTree,
      leafIndex, padding, ops, cs);
    if p.Err? then Err(p.error) else Ok(ProtectApplicationDataResult(p.value.privateMessage, p.value.tree))
  }

  datatype ProtectProposalResult<N> = ProtectProposalResult(privateMessage: PrivateMessage, newSecretTree: SecretTree<N>, proposalRef: seq<byte>)

  /**
   * protectProposal: a proposal from a member, as a private message, with
   * the reference of the private-message authenticated content it carries.
   */
  function ProtectProposal<N>(signKey: seq<byte>, senderDataSecret: seq<byte>, p: Proposal, authenticatedData: seq<byte>,
    groupContext: GroupContext, secretTree: SecretTree<N>, leafIndex: uint32, padding: nat, ops: SecretTreeOps<N>, cs: CiphersuiteImpl)
    : (r: Result<ProtectProposalResult<N>>)
    ensures r.Err? <==> (SecretNodeAt(secretTree, LeafNodeIndex(leafIndex)).None?
      || ops.consumeRatchet(secretTree, LeafNodeIndex(leafIndex), ProposalContent).Err?)
    ensures r.Ok? ==>
      var content := MemberContent(groupContext, leafIndex, authenticatedData, ProposalData(p));
      r.value.privateMessage.contentType == ProposalContent
      && r.value.proposalRef
        == MakeProposalRef(cs.hash, AuthenticatedContent(MlsPrivateMessage, content, SignPrivateContent(signKey, groupContext, content, cs)))
  {
    var info := ProposalData(p);
    var protected := ProtectSigned(signKey, senderDataSecret, info, authenticatedData, groupContext, secretTree, leafIndex, padding, ops, cs);
    if protected.Err? then Err(protected.error)
    else
      var content := MemberContent(groupContext, leafIndex, authenticatedData, info);
      var auth := SignPrivateContent(signKey, groupContext, content, cs);
      var proposalRef := MakeProposalRef(cs.hash, AuthenticatedContent(MlsPrivateMessage, content, auth));
      Ok(ProtectProposalResult(protected.value.privateMessage, protected.value.tree, proposalRef))
  }

  // ---------------------------------------------------------------------
  // unprotectPrivateMessage
  // ---------------------------------------------------------------------

  datatype UnprotectResult<N> = UnprotectResult(content: AuthenticatedContent, tree: SecretTree<N>)

  /** validateSenderData: a ValidationError unless the sender's slot holds a leaf node. */
  function ValidateSenderData(senderData: SenderData, tree: RatchetTree): (r: Option<MlsError>)
    ensures r.None? <==> NodeAt(tree, LeafNodeIndex(senderData.leafIndex)).Some? && NodeAt(tree, LeafNodeIndex(senderData.leafIndex)).value.NodeLeaf?
    ensures r.Some? ==> r.value == ValidationError
  {
    match NodeAt(tree, LeafNodeIndex(senderData.leafIndex))
    case Some(NodeLeaf(_)) => None
    case _ => Some(ValidationError)
  }

  /**
   * The content under the ratcheted key and nonce: a decryption failure is
   * a CryptoVerificationError, a plaintext that does not decode as content
   * of the message's type a CodecError.
   */
  function DecryptContent(msg: PrivateMessage, key: seq<byte>, nonce: seq<byte>, cs: CiphersuiteImpl): (r: Result<PrivateMessageContent>)
    ensures var d := cs.hpke.decryptAead(key, nonce, EncodePrivateContentAad(ContentAadOf(msg)), msg.ciphertext);
      (d.None? ==> r == Err(CryptoVerificationError))
      && (d.Some? ==>
        ((r.Ok? <==> DecodePrivateMessageContent(msg.contentType)(d.value, 0).Some?)
         && (r.Err? ==> r.error == CodecError)
         && (r.Ok? ==> r.value == DecodePrivateMessageContent(msg.contentType)(d.value, 0).value.0)))
  {
    var decrypted := cs.hpke.decryptAead(key, nonce, EncodePrivateContentAad(ContentAadOf(msg)), msg.ciphertext);
    if decrypted.None? then Err(CryptoVerificationError)
    else
      var decoded := DecodePrivateMessageContent(msg.contentType)(decrypted.value, 0);
      if decoded.None? then Err(CodecError) else Ok(decoded.value.0)
  }

  /** The key the content must be signed with: the override when one is given, else the sender leaf's. */
  function SenderSignatureKey(overrideSignatureKey: Option<seq<byte>>, ratchetTree: RatchetTree, leafIndex: uint32): (r: Result<seq<byte>>)
    ensures overrideSignatureKey.Some? ==> r == Ok(overrideSignatureKey.value)
    ensures overrideSignatureKey.None? ==> r == GetSignaturePublicKeyFromLeafIndex(ratchetTree, leafIndex as nat)
  {
    if overrideSignatureKey.Some? then Ok(overrideSignatureKey.value)
    else GetSignaturePublicKeyFromLeafIndex(ratchetTree, leafIndex as nat)
  }

  /**
   * Everything unprotectPrivateMessage does once the sender data is known:
   * ratchet to the sender's generation, decrypt and decode the content,
   * frame it, and check its signature, a CryptoVerificationError when that
   * fails.
   */
  function UnprotectWithSenderData<N>(senderData: SenderData, msg: PrivateMessage, secretTree: SecretTree<N>, ratchetTree: RatchetTree,
    groupContext: GroupContext, ops: SecretTreeOps<N>, cs: CiphersuiteImpl, overrideSignatureKey: Option<seq<byte>>)
    : (r: Result<UnprotectResult<N>>)
    ensures var g := ops.ratchetToGeneration(secretTree, senderData, msg.contentType);
      (g.Err? ==> r == Err(g.error))
      && (g.Ok? && DecryptContent(msg, g.value.key, g.value.nonce, cs).Err? ==> r == Err(DecryptContent(msg, g.value.key, g.value.nonce, cs).error))
    ensures r.Ok? ==>
      var a := r.value.content;
      var key := SenderSignatureKey(overrideSignatureKey, ratchetTree, senderData.leafIndex);
      a.wireformat == MlsPrivateMessage && a.content.sender == Member(senderData.leafIndex)
      && a.content.groupId == msg.groupId && a.content.epoch == msg.epoch && a.content.authenticatedData == msg.authenticatedData
      && key.Ok? && VerifyFramedContentSignature(cs.signature, key.value, MlsPrivateMessage, a.content, a.auth, groupContext)
      && r.value.tree == ops.ratchetToGeneration(secretTree, senderData, msg.contentType).value.newTree
    ensures r.Err? && r.error == CryptoVerificationError ==>
      ops.ratchetToGeneration(secretTree, senderData, msg.contentType).Err? || SenderSignatureKey(overrideSignatureKey, ratchetTree, senderData.leafIndex).Err?
      || var g := ops.ratchetToGeneration(secretTree, senderData, msg.contentType).value;
      var d := DecryptContent(msg, g.key, g.nonce, cs);
      d.Err? || !VerifyFramedContentSignature(cs.signature, SenderSignatureKey(overrideSignatureKey, ratchetTree, senderData.leafIndex).value,
        MlsPrivateMessage, ToAuthenticatedContent(d.value, msg, senderData.leafIndex).content, d.value.auth, groupContext)
  {
    var ratcheted := ops.ratchetToGeneration(secretTree, senderData, msg.contentType);
    if ratcheted.Err? then Err(ratcheted.error)
    else
      var decrypted := DecryptContent(msg, ratcheted.value.key, ratcheted.value.nonce, cs);
      if decrypted.Err? then Err(decrypted.error)
      else
        var content := ToAuthenticatedContent(decrypted.value, msg, senderData.leafIndex);
        var key := SenderSignatureKey(overrideSignatureKey, ratchetTree, senderData.leafIndex);
        if key.Err? then Err(key.error)
        else if !VerifyFramedContentSignature(cs.signature, key.value, MlsPrivateMessage, content.content, content.auth, groupContext) then
          Err(CryptoVerificationError)
        else Ok(UnprotectResult(content, ratcheted.value.newTree))
  }

  /**
   * unprotectPrivateMessage as written: sender data that does not decrypt
   * is a CodecError; the result of validateSenderData is computed but not
   * acted on, so the remaining steps run whatever the sender's slot holds.
   */
  function UnprotectPrivateMessageAsWritten<N>(senderDataSecret: seq<byte>, msg: PrivateMessage, secretTree: SecretTree<N>,
    ratchetTree: RatchetTree, groupContext: GroupContext, ops: SecretTreeOps<N>, cs: CiphersuiteImpl, overrideSignatureKey: Option<seq<byte>>)
    : (r: Result<UnprotectResult<N>>)
    ensures DecryptSenderData(msg, senderDataSecret, cs).None? ==> r == Err(CodecError)
    ensures DecryptSenderData(msg, senderDataSecret, cs).Some? ==>
      r == UnprotectWithSenderData(DecryptSenderData(msg, senderDataSecret, cs).value, msg, secretTree, ratchetTree, groupContext, ops, cs, overrideSignatureKey)
  {
    var senderData := DecryptSenderData(msg, senderDataSecret, cs);
    if senderData.None? then Err(CodecError)
    else
      var _ := ValidateSenderData(senderData.value, ratchetTree);
      UnprotectWithSenderData(senderData.value, msg, secretTree, ratchetTree, groupContext, ops, cs, overrideSignatureKey)
  }

  /**
   * unprotectPrivateMessage with the validation acted on: sender data that
   * does not decrypt is a CodecError, and sender data naming a slot without
   * a leaf node a ValidationError before any ratchet is touched.
   */
  function UnprotectPrivateMessage<N>(senderDataSecret: seq<byte>, msg: PrivateMessage, secretTree: SecretTree<N>,
    ratchetTree: RatchetTree, groupContext: GroupContext, ops: SecretTreeOps<N>, cs: CiphersuiteImpl, overrideSignatureKey: Option<seq<byte>>)
    : (r: Result<UnprotectResult<N>>)
    ensures DecryptSenderData(msg, senderDataSecret, cs).None? ==> r == Err(CodecError)
    ensures DecryptSenderData(msg, senderDataSecret, cs).Some? ==>
      var sd := DecryptSenderData(msg, senderDataSecret, cs).value;
      (ValidateSenderData(sd, ratchetTree).Some? ==> r == Err(ValidationError))
      && (ValidateSenderData(sd, ratchetTree).None? ==>
        r == UnprotectWithSenderData(sd, msg, secretTree, ratchetTree, groupContext, ops, cs, overrideSignatureKey))
    ensures r.Ok? ==>
      DecryptSenderData(msg, senderDataSecret, cs).Some?
      && ValidateSenderData(DecryptSenderData(msg, senderDataSecret, cs).value, ratchetTree).None?
  {
    var senderData := DecryptSenderData(msg, senderDataSecret, cs);
    if senderData.None? then Err(CodecError)
    else
      var invalid := ValidateSenderData(senderData.value, ratchetTree);
      if invalid.Some? then Err(invalid.value)
      else UnprotectWithSenderData(senderData.value, msg, secretTree, ratchetTree, groupContext, ops, cs, overrideSignatureKey)
  }

  // ---------------------------------------------------------------------
  // Protect, then unprotect
  // ---------------------------------------------------------------------

  /** The ratchet output protect used, when protect succeeded. */
  function ConsumedBy<N>(secretTree: SecretTree<N>, content: PrivateMessageContent, leafIndex: uint32, ops: SecretTreeOps<N>): Result<ConsumedRatchet<N>> {
    ops.consumeRatchet(secretTree, LeafNodeIndex(leafIndex), ContentTypeOfInfo(content.info))
  }

  /** The sender data protect encrypted decrypts back to the sender's leaf, generation and reuse guard. */
  lemma ProtectedSenderDataDecrypts<N>(senderDataSecret: seq<byte>, authenticatedData: seq<byte>, groupContext: GroupContext,
    secretTree: SecretTree<N>, content: PrivateMessageContent, leafIndex: uint32, ops: SecretTreeOps<N>, cs: CiphersuiteImpl)
    requires AeadConsistent(cs.hpke)
    requires Protect(senderDataSecret, authenticatedData, groupContext, secretTree, content, leafIndex, ops, cs).Ok?
    requires |ConsumedBy(secretTree, content, leafIndex, ops).value.reuseGuard| == 4
    ensures var m := Protect(senderDataSecret, authenticatedData, groupContext, secretTree, content, leafIndex, ops, cs).value.privateMessage;
      var c := ConsumedBy(secretTree, content, leafIndex, ops).value;
      DecryptSenderData(m, senderDataSecret, cs) == Some(SenderData(leafIndex, c.generation, c.reuseGuard))
  {
    var m := Protect(senderDataSecret, authenticatedData, groupContext, secretTree, content, leafIndex, ops, cs).value.privateMessage;
    var c := ConsumedBy(secretTree, content, leafIndex, ops).value;
    SenderDataDecrypts(m, senderDataSecret, SenderData(leafIndex, c.generation, c.reuseGuard), cs);
  }

  /** Under the key and nonce protect used, the ciphertext decrypts and decodes back to the content. */
  lemma ProtectedContentDecrypts<N>(senderDataSecret: seq<byte>, authenticatedData: seq<byte>, groupContext: GroupContext,
    secretTree: SecretTree<N>, content: PrivateMessageContent, leafIndex: uint32, ops: SecretTreeOps<N>, cs: CiphersuiteImpl)
    requires AeadConsistent(cs.hpke) && CanonicalPrivateMessageContent(content)
    requires Protect(senderDataSecret, authenticatedData, groupContext, secretTree, content, leafIndex, ops, cs).Ok?
    ensures var m := Protect(senderDataSecret, authenticatedData, groupContext, secretTree, content, leafIndex, ops, cs).value.privateMessage;
      var c := ConsumedBy(secretTree, content, leafIndex, ops).value;
      DecryptContent(m, c.key, c.nonce, cs) == Ok(content)
  {
    var m := Protect(senderDataSecret, authenticatedData, groupContext, secretTree, content, leafIndex, ops, cs).value.privateMessage;
    var c := ConsumedBy(secretTree, content, leafIndex, ops).value;
    var _ := cs.hpke.encryptAead(c.key, c.nonce, EncodePrivateContentAad(ContentAadOf(m)), EncodePrivateMessageContent(content));
    PrivateMessageContentRoundTrip(content);
  }

  /**
   * A receiver whose secret tree is in step with the sender's, whose
   * ratchet tree holds a leaf for the sender, and whose signature key for
   * the sender accepts the content's signature, recovers from the message
   * protect produced the member content and its auth data.
   */
  lemma ProtectThenUnprotect<N>(senderDataSecret: seq<byte>, authenticatedData: seq<byte>, groupContext: GroupContext,
    secretTree: SecretTree<N>, receiverTree: SecretTree<N>, ratchetTree: RatchetTree, content: PrivateMessageContent, leafIndex: uint32,
    ops: SecretTreeOps<N>, cs: CiphersuiteImpl, overrideSignatureKey: Option<seq<byte>>)
    requires AeadConsistent(cs.hpke) && CanonicalPrivateMessageContent(content)
    requires RatchetsAgree(ops, secretTree, receiverTree, leafIndex, ContentTypeOfInfo(content.info))
    requires NodeAt(ratchetTree, LeafNodeIndex(leafIndex)).Some? && NodeAt(ratchetTree, LeafNodeIndex(leafIndex)).value.NodeLeaf?
    requires SenderSignatureKey(overrideSignatureKey, ratchetTree, leafIndex).Ok?
    requires VerifyFramedContentSignature(cs.signature, SenderSignatureKey(overrideSignatureKey, ratchetTree, leafIndex).value, MlsPrivateMessage,
      MemberContent(groupContext, leafIndex, authenticatedData, content.info), content.auth, groupContext)
    requires Protect(senderDataSecret, authenticatedData, groupContext, secretTree, content, leafIndex, ops, cs).Ok?
    ensures var m := Protect(senderDataSecret, authenticatedData, groupContext, secretTree, content, leafIndex, ops, cs).value.privateMessage;
      var c := ConsumedBy(secretTree, content, leafIndex, ops).value;
      var g := ops.ratchetToGeneration(receiverTree, SenderData(leafIndex, c.generation, c.reuseGuard), ContentTypeOfInfo(content.info)).value;
      UnprotectPrivateMessage(senderDataSecret, m, receiverTree, ratchetTree, groupContext, ops, cs, overrideSignatureKey)
        == Ok(UnprotectResult(AuthenticatedContent(MlsPrivateMessage, MemberContent(groupContext, leafIndex, authenticatedData, content.info), content.auth),
          g.newTree))
  {
    var m := Protect(senderDataSecret, authenticatedData, groupContext, secretTree, content, leafIndex, ops, cs).value.privateMessage;
    var c := ConsumedBy(secretTree, content, leafIndex, ops).value;
    ProtectedSenderDataDecrypts(senderDataSecret, authenticatedData, groupContext, secretTree, content, leafIndex, ops, cs);
    ProtectedContentDecrypts(senderDataSecret, authenticatedData, groupContext, secretTree, content, leafIndex, ops, cs);
    var sd := SenderData(leafIndex, c.generation, c.reuseGuard);
    assert ValidateSenderData(sd, ratchetTree).None?;
  }

  /**
   * A member's application data or proposal, signed and protected, comes
   * back out of unprotectPrivateMessage at a receiver in step with it that
   * holds the member's leaf with the matching public key.
   */
  lemma ProtectSignedThenUnprotect<N>(signKey: seq<byte>, publicKey: seq<byte>, senderDataSecret: seq<byte>, info: FramedContentInfo,
    authenticatedData: seq<byte>, groupContext: GroupContext, secretTree: SecretTree<N>, receiverTree: SecretTree<N>, ratchetTree: RatchetTree,
    leafIndex: uint32, padding: nat, ops: SecretTreeOps<N>, cs: CiphersuiteImpl)
    requires AeadConsistent(cs.hpke) && SignatureConsistent(cs.signature, publicKey, signKey)
    requires CanonicalFramedContentInfo(info) && ContentTypeOfInfo(info) != CommitContent
    requires RatchetsAgree(ops, secretTree, receiverTree, leafIndex, ContentTypeOfInfo(info))
    requires GetSignaturePublicKeyFromLeafIndex(ratchetTree, leafIndex as nat) == Ok(publicKey)
    requires ProtectSigned(signKey, senderDataSecret, info, authenticatedData, groupContext, secretTree, leafIndex, padding, ops, cs).Ok?
    ensures var m := ProtectSigned(signKey, senderDataSecret, info, authenticatedData, groupContext, secretTree, leafIndex, padding, ops, cs).value.privateMessage;
      var r := UnprotectPrivateMessage(senderDataSecret, m, receiverTree, ratchetTree, groupContext, ops, cs, None);
      var content := MemberContent(groupContext, leafIndex, authenticatedData, info);
      r.Ok? && r.value.content == AuthenticatedContent(MlsPrivateMessage, content, SignPrivateContent(signKey, groupContext, content, cs))
  {
    var content := MemberContent(groupContext, leafIndex, authenticatedData, info);
    var auth := SignPrivateContent(signKey, groupContext, content, cs);
    SignedContentVerifies(cs.signature, publicKey, signKey, content, MlsPrivateMessage, groupContext);
    ProtectThenUnprotect(senderDataSecret, authenticatedData, groupContext, secretTree, receiverTree, ratchetTree,
      PrivateMessageContent(info, auth, padding), leafIndex, ops, cs, None);
  }

  /**
   * Application data protected by a member is what a receiver in step with it
   * unprotects: the same data and authenticated data, from the member's leaf.
   */
  lemma ApplicationDataUnprotects<N>(signKey: seq<byte>, publicKey: seq<byte>, senderDataSecret: seq<byte>, applicationData: seq<byte>,
    authenticatedData: seq<byte>, groupContext: GroupContext, secretTree: SecretTree<N>, receiverTree: SecretTree<N>, ratchetTree: RatchetTree,
    leafIndex: uint32, padding: nat, ops: SecretTreeOps<N>, cs: CiphersuiteImpl)
    requires AeadConsistent(cs.hpke) && SignatureConsistent(cs.signature, publicKey, signKey)
    requires RatchetsAgree(ops, secretTree, receiverTree, leafIndex, Application)
    requires GetSignaturePublicKeyFromLeafIndex(ratchetTree, leafIndex as nat) == Ok(publicKey)
    requires ProtectApplicationData(signKey, senderDataSecret, applicationData, authenticatedData, groupContext, secretTree, leafIndex, padding, ops, cs).Ok?
    ensures var m := ProtectApplicationData(signKey, senderDataSecret, applicationData, authenticatedData, groupContext, secretTree, leafIndex, padding, ops, cs).value.privateMessage;
      var r := UnprotectPrivateMessage(senderDataSecret, m, receiverTree, ratchetTree, groupContext, ops, cs, None);
      r.Ok? && r.value.content.content == MemberContent(groupContext, leafIndex, authenticatedData, ApplicationData(applicationData))
  {
    ProtectSignedThenUnprotect(signKey, publicKey, senderDataSecret, ApplicationData(applicationData), authenticatedData, groupContext,
      secretTree, receiverTree, ratchetTree, leafIndex, padding, ops, cs);
  }

  /**
   * The proposal reference protectProposal returns is the reference of the
   * authenticated content the receiver unprotects, so both sides file the
   * proposal under the same key.
   */
  lemma ProposalRefMatchesReceived<N>(signKey: seq<byte>, publicKey: seq<byte>, senderDataSecret: seq<byte>, p: Proposal,
    authenticatedData: seq<byte>, groupContext: GroupContext, secretTree: SecretTree<N>, receiverTree: SecretTree<N>, ratchetTree: RatchetTree,
    leafIndex: uint32, padding: nat, ops: SecretTreeOps<N>, cs: CiphersuiteImpl)
    requires AeadConsistent(cs.hpke) && SignatureConsistent(cs.signature, publicKey, signKey) && CanonicalProposal(p)
    requires RatchetsAgree(ops, secretTree, receiverTree, leafIndex, ProposalContent)
    requires GetSignaturePublicKeyFromLeafIndex(ratchetTree, leafIndex as nat) == Ok(publicKey)
    requires ProtectProposal(signKey, senderDataSecret, p, authenticatedData, groupContext, secretTree, leafIndex, padding, ops, cs).Ok?
    ensures var sent := ProtectProposal(signKey, senderDataSecret, p, authenticatedData, groupContext, secretTree, leafIndex, padding, ops, cs).value;
      var r := UnprotectPrivateMessage(senderDataSecret, sent.privateMessage, receiverTree, ratchetTree, groupContext, ops, cs, None);
      r.Ok? && MakeProposalRef(cs.hash, r.value.content) == sent.proposalRef
  {
    ProposalSentSigned(signKey, senderDataSecret, p, authenticatedData, groupContext, secretTree, leafIndex, padding, ops, cs);
    ProtectSignedThenUnprotect(signKey, publicKey, senderDataSecret, ProposalData(p), authenticatedData, groupContext, secretTree, receiverTree,
      ratchetTree, leafIndex, padding, ops, cs);
  }

  /** protectProposal sends the message protectSigned makes of the proposal. */
  lemma ProposalSentSigned<N>(signKey: seq<byte>, senderDataSecret: seq<byte>, p: Proposal, authenticatedData: seq<byte>,
    groupContext: GroupContext, secretTree: SecretTree<N>, leafIndex: uint32, padding: nat, ops: SecretTreeOps<N>, cs: CiphersuiteImpl)
    requires ProtectProposal(signKey, senderDataSecret, p, authenticatedData, groupContext, secretTree, leafIndex, padding, ops, cs).Ok?
    ensures var signed := ProtectSigned(signKey, senderDataSecret, ProposalData(p), authenticatedData, groupContext, secretTree, leafIndex,
        padding, ops, cs);
      signed.Ok?
      && ProtectProposal(signKey, senderDataSecret, p, authenticatedData, groupContext, secretTree, leafIndex, padding, ops, cs).value.privateMessage
        == signed.value.privateMessage
  {
  }

  // ---------------------------------------------------------------------
  // The discarded validation
  // ---------------------------------------------------------------------

  /**
   * As written, a message whose sender data names a slot without a leaf is
   * still accepted when an override key verifies its signature, and without
   * an override it fails with the InternalError of the key lookup; with the
   * validation acted on it is a ValidationError either way.
   */
  lemma DiscardedValidationAcceptsBlankSender<N>(senderDataSecret: seq<byte>, msg: PrivateMessage, secretTree: SecretTree<N>,
    ratchetTree: RatchetTree, groupContext: GroupContext, ops: SecretTreeOps<N>, cs: CiphersuiteImpl, overrideSignatureKey: Option<seq<byte>>)
    requires DecryptSenderData(msg, senderDataSecret, cs).Some?
    requires NodeAt(ratchetTree, LeafNodeIndex(DecryptSenderData(msg, senderDataSecret, cs).value.leafIndex)).None?
    requires UnprotectWithSenderData(DecryptSenderData(msg, senderDataSecret, cs).value, msg, secretTree, ratchetTree, groupContext, ops, cs,
      overrideSignatureKey).Ok?
    ensures UnprotectPrivateMessageAsWritten(senderDataSecret, msg, secretTree, ratchetTree, groupContext, ops, cs, overrideSignatureKey).Ok?
    ensures overrideSignatureKey.Some?
    ensures UnprotectPrivateMessage(senderDataSecret, msg, secretTree, ratchetTree, groupContext, ops, cs, overrideSignatureKey) == Err(ValidationError)
  {
  }
}
