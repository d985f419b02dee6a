/**
 * Proposals from outside the group, src/externalProposal.ts: a new member
 * asking to be added, and a proposal from an external sender listed in the
 * group's external_senders extensions.
 */
module ExternalProposal {
  import opened Wrappers
  import opened Bytes
  import opened Crypto
  import opened RatchetTree
  import opened DefaultExtensionType
  import opened Extension
  import opened ExternalSender
  import opened GroupContext
  import opened KeyPackage
  import opened Proposal
  import opened Sender
  import opened FramedContent
  import opened AuthenticatedContent
  import opened PublicMessage
  import opened GroupInfo
  import opened Message
  import opened MessageProtectionPublic

  /**
   * proposeAddExternal: a UsageError unless the key package's capabilities
   * list every group extension of a type outside the default table;
   * otherwise an add of the key package, signed by the new member and sent
   * as a new_member_proposal public message in the group's version.
   */
  function ProposeAddExternal(groupInfo: GroupInfo, keyPackage: KeyPackage, privateKeyPackage: PrivateKeyPackage, cs: CiphersuiteImpl,
    authenticatedData: seq<byte>): (r: Result<MlsMessage>)
    ensures var es := groupInfo.tbs.groupContext.extensions;
      var caps := keyPackage.leafNode.data.capabilities.extensions;
      r.Err? <==> exists i :: 0 <= i < |es| && es[i].extensionType.Numbered? && es[i].extensionType.number !in caps
    ensures r.Err? ==> r.error == UsageError
    ensures r.Ok? ==>
      var gc := groupInfo.tbs.groupContext;
      r.value.version == gc.version && r.value.content.MlsPublicMessageContent?
      && r.value.content.publicMessage.content == ProposalContentFrom(gc, NewMemberProposal, authenticatedData, ProposalAdd(keyPackage))
      && r.value.content.publicMessage.info == OtherSender(NewMemberProposalType)
  {
    var gc := groupInfo.tbs.groupContext;
    if !ExtensionsSupportedByCapabilities(gc.extensions, keyPackage.leafNode.data.capabilities.extensions) then Err(UsageError)
    else
      var msg := ProtectExternalProposalPublic(privateKeyPackage.signaturePrivateKey, gc, authenticatedData, ProposalAdd(keyPackage),
        NewMemberProposal, cs);
      Ok(MlsMessage(gc.version, MlsPublicMessageContent(msg)))
  }

  /**
   * A new member's add proposal is accepted by any member when the key
   * package carries the public key of the signing key used.
   */
  lemma ProposedAddAccepted(groupInfo: GroupInfo, keyPackage: KeyPackage, privateKeyPackage: PrivateKeyPackage, cs: CiphersuiteImpl,
    authenticatedData: seq<byte>, membershipKey: seq<byte>, ratchetTree: RatchetTree)
    requires SignatureConsistent(cs.signature, keyPackage.leafNode.data.signaturePublicKey, privateKeyPackage.signaturePrivateKey)
    requires ProposeAddExternal(groupInfo, keyPackage, privateKeyPackage, cs, authenticatedData).Ok?
    ensures var m := ProposeAddExternal(groupInfo, keyPackage, privateKeyPackage, cs, authenticatedData).value;
      UnprotectPublicMessage(membershipKey, groupInfo.tbs.groupContext, ratchetTree, m.content.publicMessage, cs, None).Ok?
  {
    NewMemberAddUnprotects(privateKeyPackage.signaturePrivateKey, membershipKey, groupInfo.tbs.groupContext, ratchetTree,
      authenticatedData, ProposalAdd(keyPackage), cs);
  }

  // ---------------------------------------------------------------------
  // Finding the external sender
  // ---------------------------------------------------------------------

  /** An external_senders extension whose data does not decode as a sender. */
  predicate Undecodable(ex: Extension) {
    ex.extensionType == ExternalSendersType && DecodeExternalSender(ex.extensionData, 0).None?
  }

  /** An external_senders extension whose data decodes as a sender with signature key `key`. */
  predicate MatchesKey(ex: Extension, key: seq<byte>) {
    ex.extensionType == ExternalSendersType && DecodeExternalSender(ex.extensionData, 0).Some?
    && DecodeExternalSender(ex.extensionData, 0).value.0.signaturePublicKey == key
  }

  /** The scan moves past the extension: of another type, or a sender with another key. */
  predicate PassedOver(ex: Extension, key: seq<byte>) {
    !Undecodable(ex) && !MatchesKey(ex, key)
  }

  /**
   * The findIndex of proposeExternal, from position `i` on: the position of
   * the first extension matching `key`, none when every extension is passed
   * over, and a ValidationError when an undecodable external_senders entry
   * comes first.
   */
  function FindExternalSenderFrom(es: seq<Extension>, key: seq<byte>, i: nat): (r: Result<Option<nat>>)
    requires i <= |es|
    ensures r.Ok? && r.value.Some? ==>
      i <= r.value.value < |es| && MatchesKey(es[r.value.value], key)
      && forall j :: i <= j < r.value.value ==> PassedOver(es[j], key)
    ensures r.Ok? && r.value.None? <==> forall j :: i <= j < |es| ==> PassedOver(es[j], key)
    ensures r.Err? ==>
      r.error == ValidationError
      && exists k :: i <= k < |es| && Undecodable(es[k]) && forall j :: i <= j < k ==> PassedOver(es[j], key)
    decreases |es| - i
  {
    if i == |es| then Ok(None)
    else if Undecodable(es[i]) then Err(ValidationError)
    else if MatchesKey(es[i], key) then Ok(Some(i))
    else FindExternalSenderFrom(es, key, i + 1)
  }

  /** The whole scan of proposeExternal. */
  function FindExternalSender(es: seq<Extension>, key: seq<byte>): (r: Result<Option<nat>>)
    ensures r.Ok? && r.value.Some? ==>
      r.value.value < |es| && MatchesKey(es[r.value.value], key) && forall j :: 0 <= j < r.value.value ==> PassedOver(es[j], key)
    ensures r == Ok(None) <==> forall j :: 0 <= j < |es| ==> PassedOver(es[j], key)
    ensures r.Err? ==>
      r.error == ValidationError && exists k :: 0 <= k < |es| && Undecodable(es[k]) && forall j :: 0 <= j < k ==> PassedOver(es[j], key)
  {
    FindExternalSenderFrom(es, key, 0)
  }

  /** The message proposeExternal sends once the sender index is chosen. */
  function ExternalProposalMessage(groupInfo: GroupInfo, proposal: Proposal, signaturePrivateKey: seq<byte>, cs: CiphersuiteImpl,
    authenticatedData: seq<byte>, senderIndex: uint32): MlsMessage
  {
    var gc := groupInfo.tbs.groupContext;
    MlsMessage(gc.version, MlsPublicMessageContent(
      ProtectExternalProposalPublic(signaturePrivateKey, gc, authenticatedData, proposal, External(senderIndex), cs)))
  }

  /**
   * proposeExternal as written: the sender index is the position of the
   * matching extension in the full extension list.
   */
  function ProposeExternalAsWritten(groupInfo: GroupInfo, proposal: Proposal, signaturePublicKey: seq<byte>, signaturePrivateKey: seq<byte>,
    cs: CiphersuiteImpl, authenticatedData: seq<byte>): (r: Result<MlsMessage>)
    requires |groupInfo.tbs.groupContext.extensions| <= 0x1_0000_0000
    ensures var f := FindExternalSender(groupInfo.tbs.groupContext.extensions, signaturePublicKey);
      (r.Ok? <==> f.Ok? && f.value.Some?) && (r.Err? ==> r.error == ValidationError)
      && (r.Ok? ==> r == Ok(ExternalProposalMessage(groupInfo, proposal, signaturePrivateKey, cs, authenticatedData, f.value.value as uint32)))
  {
    var found := FindExternalSender(groupInfo.tbs.groupContext.extensions, signaturePublicKey);
    if found.Err? then Err(found.error)
    else if found.value.None? then Err(ValidationError)
    else Ok(ExternalProposalMessage(groupInfo, proposal, signaturePrivateKey, cs, authenticatedData, found.value.value as uint32))
  }

  /**
   * proposeExternal as intended: the same scan, but the sender index counts
   * only the external_senders extensions before the match, which is the
   * position at which a receiver looks the sender up.
   */
  function ProposeExternal(groupInfo: GroupInfo, proposal: Proposal, signaturePublicKey: seq<byte>, signaturePrivateKey: seq<byte>,
    cs: CiphersuiteImpl, authenticatedData: seq<byte>): (r: Result<MlsMessage>)
    requires |groupInfo.tbs.groupContext.extensions| <= 0x1_0000_0000
    ensures var es := groupInfo.tbs.groupContext.extensions;
      var f := FindExternalSender(es, signaturePublicKey);
      (r.Ok? <==> f.Ok? && f.value.Some?) && (r.Err? ==> r.error == ValidationError)
      && (r.Ok? ==> r == Ok(ExternalProposalMessage(groupInfo, proposal, signaturePrivateKey, cs, authenticatedData,
        |ExtensionsOfType(es[..f.value.value], ExternalSendersType)| as uint32)))
  {
    var es := groupInfo.tbs.groupContext.extensions;
    var found := FindExternalSender(es, signaturePublicKey);
    if found.Err? then Err(found.error)
    else if found.value.None? then Err(ValidationError)
    else
      var j := found.value.value;
      assert |ExtensionsOfType(es[..j], ExternalSendersType)| <= j;
      Ok(ExternalProposalMessage(groupInfo, proposal, signaturePrivateKey, cs, authenticatedData,
        |ExtensionsOfType(es[..j], ExternalSendersType)| as uint32))
  }

  /**
   * Every proposal proposeExternal sends names a sender that the receiver
   * resolves to the signer's public key, so the receiver accepts it.
   */
  lemma ProposedExternalResolvesToSigner(groupInfo: GroupInfo, proposal: Proposal, signaturePublicKey: seq<byte>,
    signaturePrivateKey: seq<byte>, cs: CiphersuiteImpl, authenticatedData: seq<byte>, membershipKey: seq<byte>, ratchetTree: RatchetTree)
    requires |groupInfo.tbs.groupContext.extensions| <= 0x1_0000_0000
    requires SignatureConsistent(cs.signature, signaturePublicKey, signaturePrivateKey)
    requires ProposeExternal(groupInfo, proposal, signaturePublicKey, signaturePrivateKey, cs, authenticatedData).Ok?
    ensures var m := ProposeExternal(groupInfo, proposal, signaturePublicKey, signaturePrivateKey, cs, authenticatedData).value;
      var gc := groupInfo.tbs.groupContext;
      FindSignaturePublicKey(ratchetTree, gc, m.content.publicMessage.content) == Ok(signaturePublicKey)
      && UnprotectPublicMessage(membershipKey, gc, ratchetTree, m.content.publicMessage, cs, None).Ok?
  {
    var gc := groupInfo.tbs.groupContext;
    var es := gc.extensions;
    var j := FindExternalSender(es, signaturePublicKey).value.value;
    var k := |ExtensionsOfType(es[..j], ExternalSendersType)|;
    FilteredPosition(es, ExternalSendersType, j);
    var sender := External(k as uint32);
    assert SenderFromExtension(es, k) == Ok(Some(DecodeExternalSender(es[j].extensionData, 0).value.0));
    ExternalProposalUnprotects(signaturePrivateKey, signaturePublicKey, membershipKey, gc, ratchetTree, authenticatedData, proposal, sender, cs);
  }

  /**
   * The index as written breaks as soon as another extension precedes the
   * external sender: with one application_id extension ahead of it, the
   * sender is sent as external sender 1, which the receiver, counting only
   * external_senders extensions, does not have; the corrected index 0
   * resolves to the signer.
   */
  lemma FullListIndexMisnamesSender(groupContext: GroupContext, e: ExternalSender, proposal: Proposal, signaturePrivateKey: seq<byte>,
    cs: CiphersuiteImpl, authenticatedData: seq<byte>, ratchetTree: RatchetTree, other: seq<byte>, groupInfo: GroupInfo)
    requires !e.credential.CredentialCustom?
    requires groupInfo.tbs.groupContext == groupContext
    requires groupContext.extensions == [Extension(Named(ApplicationId), other), Extension(ExternalSendersType, EncodeExternalSender(e))]
    ensures var m := ProposeExternalAsWritten(groupInfo, proposal, e.signaturePublicKey, signaturePrivateKey, cs, authenticatedData);
      m.Ok? && m.value.content.publicMessage.content.sender == External(1)
      && FindSignaturePublicKey(ratchetTree, groupContext, m.value.content.publicMessage.content) == Err(ValidationError)
    ensures var m := ProposeExternal(groupInfo, proposal, e.signaturePublicKey, signaturePrivateKey, cs, authenticatedData);
      m.Ok? && m.value.content.publicMessage.content.sender == External(0)
      && FindSignaturePublicKey(ratchetTree, groupContext, m.value.content.publicMessage.content) == Ok(e.signaturePublicKey)
  {
    ApplicationIdAheadScan(e, other, groupContext.extensions);
    AsWrittenSendsFullListIndex(groupInfo, proposal, e.signaturePublicKey, signaturePrivateKey, cs, authenticatedData, ratchetTree);
    IntendedSendsFilteredIndex(groupInfo, proposal, e.signaturePublicKey, signaturePrivateKey, cs, authenticatedData, ratchetTree);
  }

  /** The as-written half: a match at position 1 with a single external_senders extension names a sender nobody has. */
  lemma AsWrittenSendsFullListIndex(groupInfo: GroupInfo, proposal: Proposal, key: seq<byte>, signaturePrivateKey: seq<byte>,
    cs: CiphersuiteImpl, authenticatedData: seq<byte>, ratchetTree: RatchetTree)
    requires |groupInfo.tbs.groupContext.extensions| <= 0x1_0000_0000
    requires FindExternalSender(groupInfo.tbs.groupContext.extensions, key) == Ok(Some(1))
    requires |ExtensionsOfType(groupInfo.tbs.groupContext.extensions, ExternalSendersType)| == 1
    ensures var m := ProposeExternalAsWritten(groupInfo, proposal, key, signaturePrivateKey, cs, authenticatedData);
      m.Ok? && m.value.content.publicMessage.content.sender == External(1)
      && FindSignaturePublicKey(ratchetTree, groupInfo.tbs.groupContext, m.value.content.publicMessage.content) == Err(ValidationError)
  {
    assert SenderFromExtension(groupInfo.tbs.groupContext.extensions, 1) == Ok(None);
  }

  /** The intended half: the same match, counted among the external_senders extensions, names the signer. */
  lemma IntendedSendsFilteredIndex(groupInfo: GroupInfo, proposal: Proposal, key: seq<byte>, signaturePrivateKey: seq<byte>,
    cs: CiphersuiteImpl, authenticatedData: seq<byte>, ratchetTree: RatchetTree)
    requires var es := groupInfo.tbs.groupContext.extensions;
      |es| <= 0x1_0000_0000 && FindExternalSender(es, key) == Ok(Some(1))
      && ExtensionsOfType(es[..1], ExternalSendersType) == [] && ExtensionsOfType(es, ExternalSendersType) == [es[1]]
      && DecodeExternalSender(es[1].extensionData, 0).Some? && DecodeExternalSender(es[1].extensionData, 0).value.0.signaturePublicKey == key
    ensures var m := ProposeExternal(groupInfo, proposal, key, signaturePrivateKey, cs, authenticatedData);
      m.Ok? && m.value.content.publicMessage.content.sender == External(0)
      && FindSignaturePublicKey(ratchetTree, groupInfo.tbs.groupContext, m.value.content.publicMessage.content) == Ok(key)
  {
    var es := groupInfo.tbs.groupContext.extensions;
    assert SenderFromExtension(es, 0) == Ok(Some(DecodeExternalSender(es[1].extensionData, 0).value.0));
  }

  /** The scan over an application_id extension followed by one external_senders extension for `e`. */
  lemma ApplicationIdAheadScan(e: ExternalSender, other: seq<byte>, es: seq<Extension>)
    requires !e.credential.CredentialCustom?
    requires es == [Extension(Named(ApplicationId), other), Extension(ExternalSendersType, EncodeExternalSender(e))]
    ensures FindExternalSender(es, e.signaturePublicKey) == Ok(Some(1))
    ensures ExtensionsOfType(es[..1], ExternalSendersType) == [] && ExtensionsOfType(es, ExternalSendersType) == [es[1]]
    ensures DecodeExternalSender(es[1].extensionData, 0).Some? && DecodeExternalSender(es[1].extensionData, 0).value.0 == e
  {
    ExternalSenderRoundTrip(e);
    assert EncodeExternalSender(e)[0..0 + |EncodeExternalSender(e)|] == EncodeExternalSender(e);
    assert MatchesKey(es[1], e.signaturePublicKey);
    assert es[..1] == [es[0]];
    assert ExtensionsOfType(es[..1], ExternalSendersType) == [];
    assert ExtensionsOfType(es, ExternalSendersType) == [es[1]];
  }
}
