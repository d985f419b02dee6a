/**
 * Creating proposals and application messages from a member's state,
 * src/createMessage.ts: which parts of the state each one rebuilds.
 * processProposal of src/clientState.ts, which a public proposal hands its
 * own message to, is not part of this model and is a parameter here.
 */
module CreateMessage {
  import opened Wrappers
  import opened Bytes
  import opened ContentType
  import opened Wireformat
  import opened Crypto
  import opened RatchetTree
  import opened GroupContext
  import opened Proposal
  import opened Sender
  import opened FramedContent
  import opened AuthenticatedContent
  import opened PublicMessage
  import opened PrivateMessage
  import opened ProtocolVersion
  import opened Message
  import opened SecretTree
  import opened MessageProtection
  import opened MessageProtectionPublic
  import opened UnappliedProposals
  import opened ClientState

  datatype CreateProposalResult<N> = CreateProposalResult(newState: ClientState<N>, message: MlsMessage)

  /** How the state takes in an authenticated proposal the member has just sent. */
  type ProcessProposal<!N> = (ClientState<N>, AuthenticatedContent, Proposal) -> Result<ClientState<N>>

  /** The reference of the private proposal message a member sends from `state`. */
  function PrivateProposalRef<N>(state: ClientState<N>, proposal: Proposal, authenticatedData: seq<byte>, cs: CiphersuiteImpl): seq<byte> {
    var leafIndex := state.privatePath.leafIndex;
    var content := MemberContent(state.groupContext, leafIndex, authenticatedData, ProposalData(proposal));
    MakeProposalRef(cs.hash, AuthenticatedContent(MlsPrivateMessage, content, SignPrivateContent(state.signaturePrivateKey, state.groupContext, content, cs)))
  }

  /**
   * createProposal. A public proposal is protected with the membership key
   * and handed, with its own authenticated content, to processProposal. A
   * private proposal advances the sender's ratchet and files the proposal
   * under its reference with the member's own leaf index; nothing else in
   * the state changes.
   */
  function CreateProposal<N>(state: ClientState<N>, publicMessage: bool, proposal: Proposal, cs: CiphersuiteImpl, authenticatedData: seq<byte>,
    ops: SecretTreeOps<N>, processProposal: ProcessProposal<N>): (r: Result<CreateProposalResult<N>>)
    requires state.Valid()
    ensures publicMessage ==>
      var msg := ProtectProposalPublic(state.signaturePrivateKey, state.keySchedule.membershipKey, state.groupContext, authenticatedData,
        proposal, state.privatePath.leafIndex, cs);
      var processed := processProposal(state, AuthenticatedContent(MlsPublicMessage, msg.content, msg.auth), proposal);
      (r.Ok? <==> processed.Ok?)
      && (r.Ok? ==> r.value.newState == processed.value && r.value.message == MlsMessage(Mls10, MlsPublicMessageContent(msg)))
    ensures !publicMessage ==>
      (r.Err? <==> (SecretNodeAt(state.secretTree, LeafNodeIndex(state.privatePath.leafIndex)).None?
        || ops.consumeRatchet(state.secretTree, LeafNodeIndex(state.privatePath.leafIndex), ProposalContent).Err?))
    ensures !publicMessage && r.Ok? ==>
      var ref := PrivateProposalRef(state, proposal, authenticatedData, cs);
      var s := r.value.newState;
      s.Valid()
      && s.(secretTree := state.secretTree, unappliedProposals := state.unappliedProposals) == state
      && Lookup(s.unappliedProposals, ref) == Some(ProposalWithSender(proposal, Some(state.privatePath.leafIndex)))
      && (forall k :: k != ref ==> Lookup(s.unappliedProposals, k) == Lookup(state.unappliedProposals, k))
      && r.value.message.version == Mls10 && r.value.message.content.MlsPrivateMessageContent?
      && r.value.message.content.privateMessage.contentType == ProposalContent
  {
    if publicMessage then
      var msg := ProtectProposalPublic(state.signaturePrivateKey, state.keySchedule.membershipKey, state.groupContext, authenticatedData,
        proposal, state.privatePath.leafIndex, cs);
      var processed := processProposal(state, AuthenticatedContent(MlsPublicMessage, msg.content, msg.auth), proposal);
      if processed.Err? then Err(processed.error)
      else Ok(CreateProposalResult(processed.value, MlsMessage(Mls10, MlsPublicMessageContent(msg))))
    else
      var result := ProtectProposal(state.signaturePrivateKey, state.keySchedule.senderDataSecret, proposal, authenticatedData,
        state.groupContext, state.secretTree, state.privatePath.leafIndex, state.padding, ops, cs);
      if result.Err? then Err(result.error)
      else
        var newState := state.(
          secretTree := result.value.newSecretTree,
          unappliedProposals := AddUnappliedProposal(result.value.proposalRef, state.unappliedProposals, proposal, Some(state.privatePath.leafIndex)));
        Ok(CreateProposalResult(newState, MlsMessage(Mls10, MlsPrivateMessageContent(result.value.privateMessage))))
  }

  datatype CreateApplicationMessageResult<N> = CreateApplicationMessageResult(newState: ClientState<N>, privateMessage: PrivateMessage)

  /**
   * createApplicationMessage: refused with a UsageError while proposals are
   * pending or the group is not active; otherwise the data goes out as a
   * private application message and only the secret tree changes.
   */
  function CreateApplicationMessage<N>(state: ClientState<N>, message: seq<byte>, cs: CiphersuiteImpl, authenticatedData: seq<byte>,
    ops: SecretTreeOps<N>): (r: Result<CreateApplicationMessageResult<N>>)
    ensures state.unappliedProposals != [] || !state.groupActiveState.Active? ==> r == Err(UsageError)
    ensures r.Ok? <==>
      (state.unappliedProposals == [] && state.groupActiveState.Active?
       && SecretNodeAt(state.secretTree, LeafNodeIndex(state.privatePath.leafIndex)).Some?
       && ops.consumeRatchet(state.secretTree, LeafNodeIndex(state.privatePath.leafIndex), Application).Ok?)
    ensures r.Ok? ==>
      r.value.newState.(secretTree := state.secretTree) == state
      && r.value.newState.secretTree == ops.consumeRatchet(state.secretTree, LeafNodeIndex(state.privatePath.leafIndex), Application).value.newTree
      && r.value.privateMessage.contentType == Application
  {
    var refused := CheckCanSendApplicationMessages(state);
    if refused.Some? then Err(refused.value)
    else
      var result := ProtectApplicationData(state.signaturePrivateKey, state.keySchedule.senderDataSecret, message, authenticatedData,
        state.groupContext, state.secretTree, state.privatePath.leafIndex, state.padding, ops, cs);
      if result.Err? then Err(result.error)
      else Ok(CreateApplicationMessageResult(state.(secretTree := result.value.newSecretTree), result.value.privateMessage))
  }

  /**
   * A private proposal is filed by its sender under the same reference the
   * receiver computes from the message, so both commit the same proposal by
   * reference.
   */
  lemma SentProposalFiledUnderReceivedRef<N>(state: ClientState<N>, publicKey: seq<byte>, proposal: Proposal, cs: CiphersuiteImpl,
    authenticatedData: seq<byte>, ops: SecretTreeOps<N>, processProposal: ProcessProposal<N>, receiverTree: SecretTree<N>)
    requires state.Valid()
    requires AeadConsistent(cs.hpke) && SignatureConsistent(cs.signature, publicKey, state.signaturePrivateKey) && CanonicalProposal(proposal)
    requires RatchetsAgree(ops, state.secretTree, receiverTree, state.privatePath.leafIndex, ProposalContent)
    requires GetSignaturePublicKeyFromLeafIndex(state.ratchetTree, state.privatePath.leafIndex as nat) == Ok(publicKey)
    requires CreateProposal(state, false, proposal, cs, authenticatedData, ops, processProposal).Ok?
    ensures var sent := CreateProposal(state, false, proposal, cs, authenticatedData, ops, processProposal).value;
      var received := UnprotectPrivateMessage(state.keySchedule.senderDataSecret, sent.message.content.privateMessage, receiverTree,
        state.ratchetTree, state.groupContext, ops, cs, None);
      received.Ok?
      && Lookup(sent.newState.unappliedProposals, MakeProposalRef(cs.hash, received.value.content))
        == Some(ProposalWithSender(proposal, Some(state.privatePath.leafIndex)))
  {
    var leafIndex := state.privatePath.leafIndex;
    var result := ProtectProposal(state.signaturePrivateKey, state.keySchedule.senderDataSecret, proposal, authenticatedData,
      state.groupContext, state.secretTree, leafIndex, state.padding, ops, cs);
    ProposalRefMatchesReceived(state.signaturePrivateKey, publicKey, state.keySchedule.senderDataSecret, proposal, authenticatedData,
      state.groupContext, state.secretTree, receiverTree, state.ratchetTree, leafIndex, state.padding, ops, cs);
    assert result.value.proposalRef == PrivateProposalRef(state, proposal, authenticatedData, cs);
  }

  /** A member's public proposal is accepted by any member sharing its membership key and its leaf's signature key. */
  lemma PublicProposalAccepted<N>(state: ClientState<N>, publicKey: seq<byte>, proposal: Proposal, cs: CiphersuiteImpl,
    authenticatedData: seq<byte>, ops: SecretTreeOps<N>, processProposal: ProcessProposal<N>, receiverTree: RatchetTree)
    requires state.Valid()
    requires MacConsistent(cs.hash) && SignatureConsistent(cs.signature, publicKey, state.signaturePrivateKey)
    requires GetSignaturePublicKeyFromLeafIndex(receiverTree, state.privatePath.leafIndex as nat) == Ok(publicKey)
    requires CreateProposal(state, true, proposal, cs, authenticatedData, ops, processProposal).Ok?
    ensures var sent := CreateProposal(state, true, proposal, cs, authenticatedData, ops, processProposal).value;
      sent.message.content.MlsPublicMessageContent?
      && UnprotectPublicMessage(state.keySchedule.membershipKey, state.groupContext, receiverTree, sent.message.content.publicMessage, cs, None).Ok?
  {
    PublicProposalUnprotects(state.signaturePrivateKey, publicKey, state.keySchedule.membershipKey, state.groupContext, receiverTree,
      authenticatedData, proposal, state.privatePath.leafIndex, cs);
  }
}
