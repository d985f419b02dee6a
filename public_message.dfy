/**
 * Public messages, src/publicMessage.ts: the framed content, its auth data
 * and the membership tag member senders add; and the resolution of the key
 * that must have signed a public message, by sender type.
 */
module PublicMessage {
  import opened Wrappers
  import opened Bytes
  import opened TlsDecoder
  import opened VariableLength
  import opened Extension
  import opened DefaultExtensionType
  import opened ExternalSender
  import opened GroupContext
  import opened TreeMath
  import opened RatchetTree
  import opened LeafNode
  import opened Proposal
  import opened Commit
  import opened UpdatePath
  import opened ContentType
  import opened Sender
  import opened FramedContent

  /** The membership tag of a member sender, or just the other sender type. */
  datatype PublicMessageInfo =
    | MemberTag(membershipTag: seq<byte>)
    | OtherSender(senderType: SenderTypeName)

  function InfoSenderType(i: PublicMessageInfo): SenderTypeName {
    if i.MemberTag? then MemberType else i.senderType
  }

  predicate WellFormedInfo(i: PublicMessageInfo) {
    i.OtherSender? ==> i.senderType != MemberType
  }

  /** A member's var-len membership tag; nothing for the other senders. */
  function EncodePublicMessageInfo(i: PublicMessageInfo): seq<byte> {
    match i
    case MemberTag(tag) => EncodeVarLenData(tag)
    case OtherSender(_) => []
  }

  function DecodePublicMessageInfo(t: SenderTypeName): Decoder<PublicMessageInfo> {
    match t
    case MemberType => MapDecoder(DecodeVarLenData, (tag: seq<byte>) => MemberTag(tag))
    case _ => SucceedDecoder(OtherSender(t))
  }

  lemma PublicMessageInfoRoundTrip(i: PublicMessageInfo)
    requires WellFormedInfo(i)
    ensures Decodes(DecodePublicMessageInfo(InfoSenderType(i)), EncodePublicMessageInfo(i), i)
  {
    match i
    case MemberTag(tag) =>
      VarLenDataRoundTrip(tag);
      MapDecoderDecodes(DecodeVarLenData, (tag: seq<byte>) => MemberTag(tag), EncodeVarLenData(tag), tag);
    case OtherSender(_) =>
      SucceedDecoderDecodes(i);
  }

  datatype PublicMessage = PublicMessage(content: FramedContent, auth: FramedContentAuthData, info: PublicMessageInfo)

  /** Auth data of the content's type and, after it, the info of the content's sender type. */
  predicate CanonicalPublicMessage(m: PublicMessage) {
    CanonicalFramedContent(m.content) && WellFormedAuthData(m.auth) && AuthContentType(m.auth) == ContentTypeOf(m.content)
      && WellFormedInfo(m.info) && InfoSenderType(m.info) == SenderTypeOf(m.content.sender)
  }

  function EncodePublicMessage(m: PublicMessage): seq<byte> {
    EncodeFramedContent(m.content) + EncodeFramedContentAuthData(m.auth) + EncodePublicMessageInfo(m.info)
  }

  /** After the content: its type picks the auth reader, its sender's type the info reader. */
  function PublicMessageTail(c: FramedContent): Decoder<PublicMessage> {
    MapDecoders2(DecodeFramedContentAuthData(ContentTypeOf(c)), DecodePublicMessageInfo(SenderTypeOf(c.sender)),
      (a: FramedContentAuthData, i: PublicMessageInfo) => PublicMessage(c, a, i))
  }

  const DecodePublicMessage: Decoder<PublicMessage> := FlatMapDecoder(DecodeFramedContent, PublicMessageTail)

  lemma PublicMessageRoundTrip(m: PublicMessage)
    requires CanonicalPublicMessage(m)
    ensures Decodes(DecodePublicMessage, EncodePublicMessage(m), m)
  {
    FramedContentRoundTrip(m.content);
    AuthDataRoundTrip(m.auth);
    PublicMessageInfoRoundTrip(m.info);
    MapDecoders2Decodes(DecodeFramedContentAuthData(ContentTypeOf(m.content)), DecodePublicMessageInfo(SenderTypeOf(m.content.sender)),
      (a: FramedContentAuthData, i: PublicMessageInfo) => PublicMessage(m.content, a, i),
      EncodeFramedContentAuthData(m.auth), EncodePublicMessageInfo(m.info), m.auth, m.info);
    FlatMapDecoderDecodes(DecodeFramedContent, PublicMessageTail, EncodeFramedContent(m.content),
      EncodeFramedContentAuthData(m.auth) + EncodePublicMessageInfo(m.info), m.content, m);
    assert EncodeFramedContent(m.content) + (EncodeFramedContentAuthData(m.auth) + EncodePublicMessageInfo(m.info))
      == EncodePublicMessage(m);
  }

  // ---------------------------------------------------------------------
  // External senders and the signature key
  // ---------------------------------------------------------------------

  const ExternalSendersType := Named(ExternalSenders)

  /**
   * senderFromExtension: the entry at `senderIndex` of the list of
   * external_senders extensions; none past its end, and a CodecError when
   * that entry does not decode.
   */
  function SenderFromExtension(extensions: seq<Extension>, senderIndex: nat): (r: Result<Option<ExternalSender>>)
    ensures r.Err? <==> (senderIndex < |ExtensionsOfType(extensions, ExternalSendersType)|
      && DecodeExternalSender(ExtensionsOfType(extensions, ExternalSendersType)[senderIndex].extensionData, 0).None?)
    ensures r.Err? ==> r.error == CodecError
    ensures r == Ok(None) <==> senderIndex >= |ExtensionsOfType(extensions, ExternalSendersType)|
  {
    var filtered := ExtensionsOfType(extensions, ExternalSendersType);
    if senderIndex < |filtered| then
      var decoded := DecodeExternalSender(filtered[senderIndex].extensionData, 0);
      if decoded.None? then Err(CodecError) else Ok(Some(decoded.value.0))
    else Ok(None)
  }

  /**
   * The sender stored, encoded, in the external_senders extension at a
   * filtered position is the one found there.
   */
  lemma SenderFromExtensionFindsEncoded(extensions: seq<Extension>, senderIndex: nat, e: ExternalSender, rest: seq<byte>)
    requires !e.credential.CredentialCustom?
    requires senderIndex < |ExtensionsOfType(extensions, ExternalSendersType)|
    requires ExtensionsOfType(extensions, ExternalSendersType)[senderIndex].extensionData == EncodeExternalSender(e) + rest
    ensures SenderFromExtension(extensions, senderIndex) == Ok(Some(e))
  {
    ExternalSenderRoundTrip(e);
    var b := EncodeExternalSender(e) + rest;
    assert b[0..0 + |EncodeExternalSender(e)|] == EncodeExternalSender(e);
  }

  /**
   * findSignaturePublicKey: the key the content's sender signs with.
   * A member's key is its leaf's; an external sender's comes from the
   * group's external_senders extensions; a new member proposing must send
   * an add and signs with the key package's leaf; a new member committing
   * must send a commit with a path and signs with the path's leaf.
   */
  function FindSignaturePublicKey(tree: RatchetTree, groupContext: GroupContext, content: FramedContent): (r: Result<seq<byte>>)
    ensures content.sender.Member? ==> r == GetSignaturePublicKeyFromLeafIndex(tree, content.sender.leafIndex as nat)
    ensures content.sender.External? ==>
      var f := SenderFromExtension(groupContext.extensions, content.sender.senderIndex as nat);
      (r.Ok? <==> f.Ok? && f.value.Some?) && (r.Ok? ==> r.value == f.value.value.signaturePublicKey)
      && (r.Err? ==> r.error == (if f.Err? then CodecError else ValidationError))
    ensures content.sender.NewMemberProposal? ==>
      (r.Ok? <==> content.info.ProposalData? && content.info.proposal.ProposalAdd?)
      && (r.Ok? ==> r.value == content.info.proposal.keyPackage.leafNode.data.signaturePublicKey)
      && (r.Err? ==> r.error == ValidationError)
    ensures content.sender.NewMemberCommit? ==>
      (r.Ok? <==> content.info.CommitData? && content.info.commit.path.Some?)
      && (r.Ok? ==> r.value == content.info.commit.path.value.leafNode.data.signaturePublicKey)
      && (r.Err? ==> r.error == ValidationError)
  {
    match content.sender
    case Member(leafIndex) => GetSignaturePublicKeyFromLeafIndex(tree, leafIndex as nat)
    case External(senderIndex) =>
      var found := SenderFromExtension(groupContext.extensions, senderIndex as nat);
      if found.Err? then Err(found.error)
      else if found.value.None? then Err(ValidationError)
      else Ok(found.value.value.signaturePublicKey)
    case NewMemberProposal =>
      if !content.info.ProposalData? then Err(ValidationError)
      else if !content.info.proposal.ProposalAdd? then Err(ValidationError)
      else Ok(content.info.proposal.keyPackage.leafNode.data.signaturePublicKey)
    case NewMemberCommit =>
      if !content.info.CommitData? then Err(ValidationError)
      else if content.info.commit.path.None? then Err(ValidationError)
      else Ok(content.info.commit.path.value.leafNode.data.signaturePublicKey)
  }

  /** A member whose leaf was written into the tree resolves to that leaf's key. */
  lemma MemberKeyIsLeafKey(tree: RatchetTree, groupContext: GroupContext, content: FramedContent, l: LeafNode)
    requires content.sender.Member?
    ensures FindSignaturePublicKey(UpdateArray(tree, LeafToNodeIndex(content.sender.leafIndex as nat), NodeLeaf(l)), groupContext, content)
      == Ok(l.data.signaturePublicKey)
  {
  }

  /** A member whose slot holds a parent node or is blank gets an InternalError. */
  lemma MemberWithoutLeafFails(tree: RatchetTree, groupContext: GroupContext, content: FramedContent)
    requires content.sender.Member?
    requires NodeAt(tree, LeafToNodeIndex(content.sender.leafIndex as nat)).None?
      || NodeAt(tree, LeafToNodeIndex(content.sender.leafIndex as nat)).value.NodeParent?
    ensures FindSignaturePublicKey(tree, groupContext, content) == Err(InternalError)
  {
  }

  /**
   * An external sender whose index selects, among the group's
   * external_senders extensions, one that holds that sender encoded
   * resolves to its signature key.
   */
  lemma ExternalKeyFromExtension(tree: RatchetTree, groupContext: GroupContext, content: FramedContent, e: ExternalSender, rest: seq<byte>)
    requires content.sender.External? && !e.credential.CredentialCustom?
    requires content.sender.senderIndex as nat < |ExtensionsOfType(groupContext.extensions, ExternalSendersType)|
    requires ExtensionsOfType(groupContext.extensions, ExternalSendersType)[content.sender.senderIndex].extensionData
      == EncodeExternalSender(e) + rest
    ensures FindSignaturePublicKey(tree, groupContext, content) == Ok(e.signaturePublicKey)
  {
    SenderFromExtensionFindsEncoded(groupContext.extensions, content.sender.senderIndex as nat, e, rest);
  }

  /** An external sender index past the group's external_senders extensions is a ValidationError. */
  lemma ExternalKeyMissingFails(tree: RatchetTree, groupContext: GroupContext, content: FramedContent)
    requires content.sender.External?
    requires content.sender.senderIndex as nat >= |ExtensionsOfType(groupContext.extensions, ExternalSendersType)|
    ensures FindSignaturePublicKey(tree, groupContext, content) == Err(ValidationError)
  {
  }
}
