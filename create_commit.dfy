/**
 * Committing, src/createCommit.ts: which proposals a commit carries, when
 * it has an update path, its commit secret, the group extensions and the
 * active state of the next epoch, when a Welcome is sent, how a member
 * recovers the path secret from a received update path, and the checks of
 * an external join. applyProposals, nextEpochContext, the key schedule,
 * the secret tree and the private key path live in modules that are not
 * part of this model; their results are inputs here.
 */
module CreateCommit {
  import opened Wrappers
  import opened Bytes
  import opened Crypto
  import opened TlsDecoder
  import opened TreeMath
  import opened RatchetTree
  import opened Credential
  import opened LeafNode
  import opened DefaultExtensionType
  import opened Extension
  import opened GroupContext
  import opened KeyPackage
  import opened PreSharedKey
  import opened Proposal
  import opened ProposalOrRef
  import opened Commit
  import opened Sender
  import opened Wireformat
  import opened FramedContent
  import opened AuthenticatedContent
  import opened PublicMessage
  import opened PrivateMessage
  import opened ProtocolVersion
  import opened Message
  import opened GroupInfo
  import opened GroupSecrets
  import opened HpkeCiphertext
  import opened Welcome
  import opened PathSecrets
  import opened UpdatePath
  import opened TreeHash
  import opened SecretTree
  import opened MessageProtection
  import opened MessageProtectionPublic
  import opened UnappliedProposals
  import opened ClientState
  import ContentType

  // ---------------------------------------------------------------------
  // The proposals of a commit
  // ---------------------------------------------------------------------

  /**
   * bundleAllProposals: a reference to every unapplied proposal, in the
   * table's order, then the extra proposals inline, in their order.
   */
  function BundleAllProposals(unapplied: UnappliedProposals, extraProposals: seq<Proposal>): (r: seq<ProposalOrRef>)
    ensures |r| == |unapplied| + |extraProposals|
    ensures forall i :: 0 <= i < |unapplied| ==> r[i] == Reference(Refs(unapplied)[i])
    ensures forall i :: 0 <= i < |extraProposals| ==> r[|unapplied| + i] == Inline(extraProposals[i])
  {
    var refs := Refs(unapplied);
    seq(|refs|, i requires 0 <= i < |refs| => Reference(refs[i]))
      + seq(|extraProposals|, i requires 0 <= i < |extraProposals| => Inline(extraProposals[i]))
  }

  /**
   * Every reference of the bundle resolves, in the member's table, to the
   * proposal stored under it, and every inline entry is an extra proposal.
   */
  lemma BundledReferencesResolve(unapplied: UnappliedProposals, extraProposals: seq<Proposal>)
    requires DistinctRefs(unapplied)
    ensures var b := BundleAllProposals(unapplied, extraProposals);
      forall i :: 0 <= i < |b| ==>
        (b[i].Reference? ==> i < |unapplied| && Lookup(unapplied, b[i].reference) == Some(unapplied[i].value))
        && (b[i].Inline? ==> i >= |unapplied| && b[i].proposal == extraProposals[i - |unapplied|])
  {
    var b := BundleAllProposals(unapplied, extraProposals);
    forall i | 0 <= i < |unapplied|
      ensures Lookup(unapplied, b[i].reference) == Some(unapplied[i].value)
    {
      LookupAt(unapplied, i);
    }
    forall i | |unapplied| <= i < |b|
      ensures b[i] == Inline(extraProposals[i - |unapplied|])
    {
      assert b[|unapplied| + (i - |unapplied|)] == Inline(extraProposals[i - |unapplied|]);
    }
  }

  // ---------------------------------------------------------------------
  // The outcome of applying the proposals
  // ---------------------------------------------------------------------

  /** What applyProposals reports beside the tree: the kind of commit and what it carries. */
  datatype AdditionalResult =
    | MemberCommit(addedLeafNodes: seq<(LeafIndex, KeyPackage)>, extensions: seq<Extension>)
    | ExternalCommit
    | ReinitResult(reinit: Reinit)

  /** The result of applyProposals (src/clientState.ts is not part of this model). */
  datatype ApplyProposalsResult = ApplyProposalsResult(
    tree: RatchetTree,
    needsUpdatePath: bool,
    selfRemoved: bool,
    additionalResult: AdditionalResult,
    pskSecret: seq<byte>,
    pskIds: seq<PreSharedKeyId>)

  /**
   * The commit secret: zeros of the KDF's output length without path
   * secrets, else deriveSecret(last path secret, "path").
   */
  function CommitSecret(kdf: Kdf, pathSecrets: seq<PathSecret>): (r: seq<byte>)
    ensures pathSecrets == [] ==> |r| == kdf.size as nat && forall i :: 0 <= i < |r| ==> r[i] == 0
    ensures pathSecrets != [] ==> r == NextPathSecret(kdf, pathSecrets[|pathSecrets| - 1].secret)
  {
    if pathSecrets == [] then Zeros(kdf.size as nat)
    else DeriveSecret(kdf, pathSecrets[|pathSecrets| - 1].secret, "path")
  }

  /** The group extensions of the next epoch: those of a member commit's extensions proposal, if any, else the current ones. */
  function UpdatedExtensions(res: ApplyProposalsResult, current: seq<Extension>): (r: seq<Extension>)
    ensures r != current ==> res.additionalResult.MemberCommit? && r == res.additionalResult.extensions
    ensures res.additionalResult.MemberCommit? && res.additionalResult.extensions != [] ==> r == res.additionalResult.extensions
  {
    if res.additionalResult.MemberCommit? && |res.additionalResult.extensions| > 0 then res.additionalResult.extensions else current
  }

  /** The active state after a commit: removed if it removed the committer, else suspended by a reinit, else active. */
  function NextActiveState(res: ApplyProposalsResult): (r: GroupActiveState)
    ensures r.RemovedFromGroup? <==> res.selfRemoved
    ensures r.SuspendedPendingReinit? <==> !res.selfRemoved && res.additionalResult.ReinitResult?
    ensures r.SuspendedPendingReinit? ==> r.reinit == res.additionalResult.reinit
  {
    if res.selfRemoved then RemovedFromGroup
    else if res.additionalResult.ReinitResult? then SuspendedPendingReinit(res.additionalResult.reinit)
    else Active
  }

  /** What createCommit settles before signing: the proposals, the new tree and path, the secrets and the next epoch's settings. */
  datatype CommitPlan = CommitPlan(
    proposals: seq<ProposalOrRef>,
    applied: ApplyProposalsResult,
    tree: RatchetTree,
    updatePath: Option<UpdatePath>,
    pathSecrets: seq<PathSecret>,
    newPrivateKey: Option<seq<byte>>,
    extensions: seq<Extension>,
    commitSecret: seq<byte>,
    activeState: GroupActiveState)

  /**
   * The decisions of createCommit up to the signature. Sending needs an
   * active group; the unapplied proposals and the extras are bundled and
   * applied; an external-commit result is a UsageError; an update path,
   * from a fresh path secret, is made only when the proposals need one.
   * A committer leaf outside the new tree is an InternalError.
   */
  function PlanCommit<N>(state: ClientState<N>, extraProposals: seq<Proposal>,
    applyProposals: seq<ProposalOrRef> -> Result<ApplyProposalsResult>, cs: CiphersuiteImpl, freshPathSecret: seq<byte>)
    : (r: Result<CommitPlan>)
    ensures CheckCanSendHandshakeMessages(state).Some? ==> r == Err(UsageError)
    ensures CheckCanSendHandshakeMessages(state).None? ==>
      var res := applyProposals(BundleAllProposals(state.unappliedProposals, extraProposals));
      (res.Err? ==> r == Err(res.error)) && (res.Ok? && res.value.additionalResult.ExternalCommit? ==> r == Err(UsageError))
    ensures r.Ok? ==>
      var p := r.value;
      var leaf := state.privatePath.leafIndex as nat;
      p.proposals == BundleAllProposals(state.unappliedProposals, extraProposals)
      && applyProposals(p.proposals) == Ok(p.applied) && !p.applied.additionalResult.ExternalCommit?
      && (p.updatePath.Some? <==> p.applied.needsUpdatePath)
      && (!p.applied.needsUpdatePath ==> p.tree == p.applied.tree && p.pathSecrets == [] && p.newPrivateKey.None?)
      && (p.applied.needsUpdatePath ==>
        leaf < TreeLeafCount(p.applied.tree) && p.newPrivateKey.Some?
        && CreateUpdatePath(p.applied.tree, leaf, state.groupContext, state.signaturePrivateKey, cs, freshPathSecret)
          == Ok(CreatedPath(p.tree, p.updatePath.value, p.pathSecrets, p.newPrivateKey.value)))
      && p.extensions == UpdatedExtensions(p.applied, state.groupContext.extensions)
      && p.commitSecret == CommitSecret(cs.kdf, p.pathSecrets)
      && p.activeState == NextActiveState(p.applied)
  {
    var refused := CheckCanSendHandshakeMessages(state);
    if refused.Some? then Err(refused.value)
    else
      var allProposals := BundleAllProposals(state.unappliedProposals, extraProposals);
      var res := applyProposals(allProposals);
      if res.Err? then Err(res.error)
      else if res.value.additionalResult.ExternalCommit? then Err(UsageError)
      else
        var applied := res.value;
        var leaf := state.privatePath.leafIndex as nat;
        var extensions := UpdatedExtensions(applied, state.groupContext.extensions);
        var activeState := NextActiveState(applied);
        if !applied.needsUpdatePath then
          Ok(CommitPlan(allProposals, applied, applied.tree, None, [], None, extensions, CommitSecret(cs.kdf, []), activeState))
        else if leaf >= TreeLeafCount(applied.tree) then Err(InternalError)
        else
          var created := CreateUpdatePath(applied.tree, leaf, state.groupContext, state.signaturePrivateKey, cs, freshPathSecret);
          if created.Err? then Err(created.error)
          else
            var c := created.value;
            Ok(CommitPlan(allProposals, applied, c.tree, Some(c.updatePath), c.pathSecrets, Some(c.leafPrivateKey), extensions,
              CommitSecret(cs.kdf, c.pathSecrets), activeState))
  }

  // ---------------------------------------------------------------------
  // Group info and Welcome
  // ---------------------------------------------------------------------

  /** createGroupInfo: the group info signed by the committer, naming its own leaf as signer. */
  function CreateGroupInfo<N>(groupContext: GroupContext, confirmationTag: seq<byte>, state: ClientState<N>, extensions: seq<Extension>,
    cs: CiphersuiteImpl): (r: GroupInfo)
    ensures r.tbs == GroupInfoTbs(groupContext, extensions, confirmationTag, state.privatePath.leafIndex)
  {
    SignGroupInfo(cs.signature, GroupInfoTbs(groupContext, extensions, confirmationTag, state.privatePath.leafIndex), state.signaturePrivateKey)
  }

  /** A group info a member signs verifies under the public key of that member's signing key. */
  lemma CreatedGroupInfoVerifies<N>(groupContext: GroupContext, confirmationTag: seq<byte>, state: ClientState<N>, extensions: seq<Extension>,
    cs: CiphersuiteImpl, publicKey: seq<byte>)
    requires SignatureConsistent(cs.signature, publicKey, state.signaturePrivateKey)
    ensures VerifyGroupInfoSignature(cs.signature, CreateGroupInfo(groupContext, confirmationTag, state, extensions, cs), publicKey)
  {
    SignedGroupInfoVerifies(cs.signature, GroupInfoTbs(groupContext, extensions, confirmationTag, state.privatePath.leafIndex),
      publicKey, state.signaturePrivateKey);
  }

  /** createGroupInfoWithRatchetTree: the extensions followed by a ratchet_tree extension holding the encoded tree. */
  function CreateGroupInfoWithRatchetTree<N>(groupContext: GroupContext, confirmationTag: seq<byte>, state: ClientState<N>, encodedTree: seq<byte>,
    extensions: seq<Extension>, cs: CiphersuiteImpl): (r: GroupInfo)
    ensures r.tbs.extensions == extensions + [Extension(RatchetTreeType, encodedTree)]
    ensures r.tbs.groupContext == groupContext && r.tbs.signer == state.privatePath.leafIndex
  {
    CreateGroupInfo(groupContext, confirmationTag, state, extensions + [Extension(RatchetTreeType, encodedTree)], cs)
  }

  /**
   * A joiner reading a group info made with the ratchet tree extension
   * finds the committer's tree, provided the other extensions hold no
   * ratchet_tree extension of their own.
   */
  lemma JoinerFindsRatchetTree<N, T>(groupContext: GroupContext, confirmationTag: seq<byte>, state: ClientState<N>, encodedTree: seq<byte>,
    extensions: seq<Extension>, cs: CiphersuiteImpl, decodeTree: Decoder<T>, tree: T)
    requires forall j :: 0 <= j < |extensions| ==> extensions[j].extensionType != RatchetTreeType
    requires Decodes(decodeTree, encodedTree, tree)
    ensures RatchetTreeFromExtension(CreateGroupInfoWithRatchetTree(groupContext, confirmationTag, state, encodedTree, extensions, cs), decodeTree)
      == Ok(Some(tree))
  {
    var gi := CreateGroupInfoWithRatchetTree(groupContext, confirmationTag, state, encodedTree, extensions, cs);
    RatchetTreeFromFirstExtension(gi, decodeTree, |extensions|, encodedTree, tree, []);
  }

  const ExternalPubType := Named(DefaultExtensionTypeName.ExternalPub)

  /** The public key of the group's external key pair, derived from the external secret. */
  function ExternalPubKey<N>(state: ClientState<N>, cs: CiphersuiteImpl): seq<byte> {
    cs.hpke.deriveKeyPair(state.keySchedule.externalSecret).publicKey
  }

  /** createGroupInfoWithExternalPub: the current epoch's group info with an external_pub extension added. */
  function CreateGroupInfoWithExternalPub<N>(state: ClientState<N>, extensions: seq<Extension>, cs: CiphersuiteImpl): (r: GroupInfo)
    ensures r.tbs == GroupInfoTbs(state.groupContext, extensions + [Extension(ExternalPubType, ExternalPubKey(state, cs))],
      state.confirmationTag, state.privatePath.leafIndex)
  {
    CreateGroupInfo(state.groupContext, state.confirmationTag, state, extensions + [Extension(ExternalPubType, ExternalPubKey(state, cs))], cs)
  }

  /** createGroupInfoWithExternalPubAndRatchetTree: as above, followed by the encoded current tree. */
  function CreateGroupInfoWithExternalPubAndRatchetTree<N>(state: ClientState<N>, encodedTree: seq<byte>, extensions: seq<Extension>,
    cs: CiphersuiteImpl): (r: GroupInfo)
    ensures r.tbs == GroupInfoTbs(state.groupContext,
      extensions + [Extension(ExternalPubType, ExternalPubKey(state, cs)), Extension(RatchetTreeType, encodedTree)],
      state.confirmationTag, state.privatePath.leafIndex)
  {
    CreateGroupInfo(state.groupContext, state.confirmationTag, state,
      extensions + [Extension(ExternalPubType, ExternalPubKey(state, cs)), Extension(RatchetTreeType, encodedTree)], cs)
  }

  /** The secret of the first path secret for `nodeIndex` (the source's `find`). */
  function FindPathSecret(pathSecrets: seq<PathSecret>, nodeIndex: NodeIndex): (r: Option<seq<byte>>)
    ensures r.None? <==> forall j :: 0 <= j < |pathSecrets| ==> pathSecrets[j].nodeIndex != nodeIndex
    ensures r.Some? ==> exists j :: (0 <= j < |pathSecrets| && pathSecrets[j] == PathSecret(nodeIndex, r.value, pathSecrets[j].sendTo)
      && forall m :: 0 <= m < j ==> pathSecrets[m].nodeIndex != nodeIndex)
    decreases |pathSecrets|
  {
    if pathSecrets == [] then None
    else if pathSecrets[0].nodeIndex == nodeIndex then Some(pathSecrets[0].secret)
    else
      var rest := FindPathSecret(pathSecrets[1..], nodeIndex);
      assert rest.Some? ==> exists j :: (1 <= j < |pathSecrets| && pathSecrets[j] == PathSecret(nodeIndex, rest.value, pathSecrets[j].sendTo)
        && forall m :: 0 <= m < j ==> pathSecrets[m].nodeIndex != nodeIndex) by {
        if rest.Some? {
          var j :| 0 <= j < |pathSecrets[1..]| && pathSecrets[1..][j] == PathSecret(nodeIndex, rest.value, pathSecrets[1..][j].sendTo)
            && forall m :: 0 <= m < j ==> pathSecrets[1..][m].nodeIndex != nodeIndex;
          assert pathSecrets[j + 1] == pathSecrets[1..][j];
          assert forall m :: 0 <= m < j + 1 ==> pathSecrets[m].nodeIndex != nodeIndex by {
            forall m | 0 <= m < j + 1 ensures pathSecrets[m].nodeIndex != nodeIndex {
              if m > 0 { assert pathSecrets[m] == pathSecrets[1..][m - 1]; }
            }
          }
        }
      }
      rest
  }

  /** The secrets a new member at `leafIndex` receives: the joiner secret, the path secret of its common ancestor with the committer, the PSK ids. */
  function NewMemberGroupSecrets<N>(tree: RatchetTree, leafIndex: LeafIndex, state: ClientState<N>, pathSecrets: seq<PathSecret>,
    joinerSecret: seq<byte>, pskIds: seq<PreSharedKeyId>): (r: Result<GroupSecrets>)
    ensures r.Err? <==> (state.privatePath.leafIndex as nat >= TreeLeafCount(tree)
      || FirstCommonAncestorOf(tree, leafIndex, state.privatePath.leafIndex as nat).Err?)
    ensures r.Ok? ==> (r.value.joinerSecret == joinerSecret && r.value.psks == pskIds
      && r.value.pathSecret == FindPathSecret(pathSecrets, FirstCommonAncestorOf(tree, leafIndex, state.privatePath.leafIndex as nat).value))
  {
    var committer := state.privatePath.leafIndex as nat;
    if committer >= TreeLeafCount(tree) then Err(InternalError)
    else
      var nodeIndex := FirstCommonAncestorOf(tree, leafIndex, committer);
      if nodeIndex.Err? then Err(nodeIndex.error)
      else Ok(GroupSecrets(joinerSecret, FindPathSecret(pathSecrets, nodeIndex.value), pskIds))
  }

  /**
   * createEncryptedGroupSecrets: the new member's group secrets sealed to
   * its key package's init key, addressed by the key package reference.
   */
  function CreateEncryptedGroupSecrets<N>(tree: RatchetTree, leafIndex: LeafIndex, state: ClientState<N>, pathSecrets: seq<PathSecret>,
    cs: CiphersuiteImpl, keyPackage: KeyPackage, encryptedGroupInfo: seq<byte>, joinerSecret: seq<byte>, pskIds: seq<PreSharedKeyId>)
    : (r: Result<EncryptedGroupSecrets>)
    ensures var gs := NewMemberGroupSecrets(tree, leafIndex, state, pathSecrets, joinerSecret, pskIds);
      (r.Ok? <==> gs.Ok?)
      && (r.Ok? ==> r.value == EncryptedGroupSecrets(MakeKeyPackageRef(cs.hash, keyPackage),
        EncryptGroupSecrets(keyPackage.initKey, encryptedGroupInfo, gs.value, cs.hpke)))
  {
    var gs := NewMemberGroupSecrets(tree, leafIndex, state, pathSecrets, joinerSecret, pskIds);
    if gs.Err? then Err(gs.error)
    else Ok(EncryptedGroupSecrets(MakeKeyPackageRef(cs.hash, keyPackage), EncryptGroupSecrets(keyPackage.initKey, encryptedGroupInfo, gs.value, cs.hpke)))
  }

  /** `f` of every element, in order, or the first error. */
  function AllOrFirstError<A, B>(xs: seq<A>, f: A -> Result<B>): (r: Result<seq<B>>)
    ensures r.Ok? <==> forall i :: 0 <= i < |xs| ==> f(xs[i]).Ok?
    ensures r.Ok? ==> |r.value| == |xs| && forall i :: 0 <= i < |xs| ==> f(xs[i]) == Ok(r.value[i])
    decreases |xs|
  {
    if xs == [] then Ok([])
    else
      var first := f(xs[0]);
      var rest := AllOrFirstError(xs[1..], f);
      assert forall i :: 1 <= i < |xs| ==> xs[1..][i - 1] == xs[i];
      if first.Err? then Err(first.error)
      else if rest.Err? then Err(rest.error)
      else Ok([first.value] + rest.value)
  }

  /** The entries of a Welcome: one per added member, addressed to its key package reference, or the first failure. */
  function NewMemberEntries<N>(added: seq<(LeafIndex, KeyPackage)>, tree: RatchetTree, state: ClientState<N>, pathSecrets: seq<PathSecret>,
    cs: CiphersuiteImpl, encryptedGroupInfo: seq<byte>, joinerSecret: seq<byte>, pskIds: seq<PreSharedKeyId>)
    : (r: Result<seq<EncryptedGroupSecrets>>)
    ensures r.Ok? <==> forall i :: 0 <= i < |added| ==>
      NewMemberGroupSecrets(tree, added[i].0, state, pathSecrets, joinerSecret, pskIds).Ok?
    ensures r.Ok? ==> |r.value| == |added| && forall i :: 0 <= i < |added| ==>
      r.value[i].newMember == MakeKeyPackageRef(cs.hash, added[i].1)
      && r.value[i].encryptedGroupSecrets == EncryptGroupSecrets(added[i].1.initKey, encryptedGroupInfo,
        NewMemberGroupSecrets(tree, added[i].0, state, pathSecrets, joinerSecret, pskIds).value, cs.hpke)
  {
    var f := (p: (LeafIndex, KeyPackage)) =>
      CreateEncryptedGroupSecrets(tree, p.0, state, pathSecrets, cs, p.1, encryptedGroupInfo, joinerSecret, pskIds);
    var r := AllOrFirstError(added, f);
    assert forall i :: 0 <= i < |added| ==> f(added[i]).Ok? == NewMemberGroupSecrets(tree, added[i].0, state, pathSecrets, joinerSecret, pskIds).Ok?;
    r
  }

  /** The joiner and welcome secrets of the new epoch that a Welcome needs. */
  datatype WelcomeSecrets = WelcomeSecrets(joinerSecret: seq<byte>, welcomeSecret: seq<byte>)

  /** The group info a Welcome carries, with the encoded tree when asked for. */
  function WelcomeGroupInfo<N>(ratchetTreeExtension: bool, groupContext: GroupContext, confirmationTag: seq<byte>, state: ClientState<N>,
    encodedTree: seq<byte>, extensions: seq<Extension>, cs: CiphersuiteImpl): (r: GroupInfo)
    ensures ratchetTreeExtension ==> r == CreateGroupInfoWithRatchetTree(groupContext, confirmationTag, state, encodedTree, extensions, cs)
    ensures !ratchetTreeExtension ==> r == CreateGroupInfo(groupContext, confirmationTag, state, extensions, cs)
  {
    if ratchetTreeExtension then CreateGroupInfoWithRatchetTree(groupContext, confirmationTag, state, encodedTree, extensions, cs)
    else CreateGroupInfo(groupContext, confirmationTag, state, extensions, cs)
  }

  /**
   * createWelcome: the group info, with the encoded tree when asked for,
   * encrypted under the welcome secret, and one entry per added member; a
   * Welcome exists only for a member commit that adds someone.
   */
  function CreateWelcome<N>(ratchetTreeExtension: bool, groupContext: GroupContext, confirmationTag: seq<byte>, state: ClientState<N>,
    tree: RatchetTree, encodedTree: seq<byte>, cs: CiphersuiteImpl, secrets: WelcomeSecrets, res: ApplyProposalsResult,
    pathSecrets: seq<PathSecret>, extensions: seq<Extension>): (r: Result<Option<Welcome>>)
    ensures !res.additionalResult.MemberCommit? ==> r == Ok(None)
    ensures r.Ok? ==> (r.value.Some? <==> res.additionalResult.MemberCommit? && |res.additionalResult.addedLeafNodes| > 0)
    ensures r.Ok? && r.value.Some? ==>
      var w := r.value.value;
      var added := res.additionalResult.addedLeafNodes;
      w.cipherSuite == groupContext.cipherSuite && |w.secrets| == |added|
      && (forall i :: 0 <= i < |added| ==> w.secrets[i].newMember == MakeKeyPackageRef(cs.hash, added[i].1))
      && w.encryptedGroupInfo
        == EncryptGroupInfo(WelcomeGroupInfo(ratchetTreeExtension, groupContext, confirmationTag, state, encodedTree, extensions, cs),
          secrets.welcomeSecret, cs)
  {
    var groupInfo := WelcomeGroupInfo(ratchetTreeExtension, groupContext, confirmationTag, state, encodedTree, extensions, cs);
    var encryptedGroupInfo := EncryptGroupInfo(groupInfo, secrets.welcomeSecret, cs);
    var encrypted := if res.additionalResult.MemberCommit? then
        NewMemberEntries(res.additionalResult.addedLeafNodes, tree, state, pathSecrets, cs, encryptedGroupInfo, secrets.joinerSecret, res.pskIds)
      else Ok([]);
    if encrypted.Err? then Err(encrypted.error)
    else if |encrypted.value| > 0 then Ok(Some(Welcome(groupContext.cipherSuite, encrypted.value, encryptedGroupInfo)))
    else Ok(None)
  }

  /**
   * Each added member, finding the first entry addressed to its key package
   * (the package's reference, itself first among the added), recovers the
   * joiner secret, the PSK ids and the path secret of its common ancestor
   * with the committer.
   */
  lemma WelcomedMemberDecrypts<N>(ratchetTreeExtension: bool, groupContext: GroupContext, confirmationTag: seq<byte>, state: ClientState<N>,
    tree: RatchetTree, encodedTree: seq<byte>, cs: CiphersuiteImpl, secrets: WelcomeSecrets, res: ApplyProposalsResult,
    pathSecrets: seq<PathSecret>, extensions: seq<Extension>, k: nat, initPrivateKey: seq<byte>)
    requires CreateWelcome(ratchetTreeExtension, groupContext, confirmationTag, state, tree, encodedTree, cs, secrets, res, pathSecrets, extensions).Ok?
    requires res.additionalResult.MemberCommit? && k < |res.additionalResult.addedLeafNodes|
    requires var added := res.additionalResult.addedLeafNodes;
      forall j :: 0 <= j < k ==> MakeKeyPackageRef(cs.hash, added[j].1) != MakeKeyPackageRef(cs.hash, added[k].1)
    requires HpkeConsistent(cs.hpke, res.additionalResult.addedLeafNodes[k].1.initKey, initPrivateKey)
    ensures var w := CreateWelcome(ratchetTreeExtension, groupContext, confirmationTag, state, tree, encodedTree, cs, secrets, res, pathSecrets,
        extensions).value;
      var member := res.additionalResult.addedLeafNodes[k];
      w.Some?
      && DecryptGroupSecrets(initPrivateKey, MakeKeyPackageRef(cs.hash, member.1), w.value, cs.hpke)
        == Ok(Some(NewMemberGroupSecrets(tree, member.0, state, pathSecrets, secrets.joinerSecret, res.pskIds).value))
  {
    var w := CreateWelcome(ratchetTreeExtension, groupContext, confirmationTag, state, tree, encodedTree, cs, secrets, res, pathSecrets,
      extensions).value.value;
    var added := res.additionalResult.addedLeafNodes;
    var member := added[k];
    var groupInfo := WelcomeGroupInfo(ratchetTreeExtension, groupContext, confirmationTag, state, encodedTree, extensions, cs);
    var encryptedGroupInfo := EncryptGroupInfo(groupInfo, secrets.welcomeSecret, cs);
    var encrypted := NewMemberEntries(added, tree, state, pathSecrets, cs, encryptedGroupInfo, secrets.joinerSecret, res.pskIds);
    assert w.secrets == encrypted.value;
    var gs := NewMemberGroupSecrets(tree, member.0, state, pathSecrets, secrets.joinerSecret, res.pskIds);
    GroupSecretsDecryptForMember(w, k, MakeKeyPackageRef(cs.hash, member.1), member.1.initKey, initPrivateKey, gs.value, cs.hpke);
  }

  // ---------------------------------------------------------------------
  // Protecting the commit
  // ---------------------------------------------------------------------

  datatype ProtectedCommit<N> = ProtectedCommit(message: MlsMessage, secretTree: SecretTree<N>)

  /**
   * protectCommit: as a public message with the membership tag, leaving
   * the secret tree as it is, or as a private message, consuming the
   * committer's handshake ratchet.
   */
  function ProtectCommit<N>(publicMessage: bool, state: ClientState<N>, authenticatedData: seq<byte>, content: FramedContent,
    auth: FramedContentAuthData, cs: CiphersuiteImpl, ops: SecretTreeOps<N>): (r: Result<ProtectedCommit<N>>)
    requires content.info.CommitData?
    ensures publicMessage ==> (r.Ok? && r.value.secretTree == state.secretTree && r.value.message.version == Mls10
      && r.value.message.content.MlsPublicMessageContent?
      && r.value.message.content.publicMessage
        == ProtectPublicMessage(state.keySchedule.membershipKey, state.groupContext, AuthenticatedContent(MlsPublicMessage, content, auth), cs).value)
    ensures !publicMessage ==>
      var p := Protect(state.keySchedule.senderDataSecret, authenticatedData, state.groupContext, state.secretTree,
        PrivateMessageContent(content.info, auth, state.padding), state.privatePath.leafIndex, ops, cs);
      (r.Ok? <==> p.Ok?)
      && (r.Ok? ==> r.value == ProtectedCommit(MlsMessage(Mls10, MlsPrivateMessageContent(p.value.privateMessage)), p.value.tree))
  {
    if publicMessage then
      var msg := ProtectPublicMessage(state.keySchedule.membershipKey, state.groupContext, AuthenticatedContent(MlsPublicMessage, content, auth), cs);
      Ok(ProtectedCommit(MlsMessage(Mls10, MlsPublicMessageContent(msg.value)), state.secretTree))
    else
      var p := Protect(state.keySchedule.senderDataSecret, authenticatedData, state.groupContext, state.secretTree,
        PrivateMessageContent(content.info, auth, state.padding), state.privatePath.leafIndex, ops, cs);
      if p.Err? then Err(p.error)
      else Ok(ProtectedCommit(MlsMessage(Mls10, MlsPrivateMessageContent(p.value.privateMessage)), p.value.tree))
  }

  // ---------------------------------------------------------------------
  // createCommit
  // ---------------------------------------------------------------------

  /** The secrets of the new epoch that createCommit reads from initializeEpoch. */
  datatype EpochSecrets = EpochSecrets(
    keySchedule: KeySchedule,
    joinerSecret: seq<byte>,
    welcomeSecret: seq<byte>,
    confirmationKey: seq<byte>,
    encryptionSecret: seq<byte>)

  /**
   * The steps of createCommit that live in modules not part of this model:
   * applyProposals, nextEpochContext (the group context of the next epoch
   * from the current one, the wire format, the signed content, its
   * signature, the new tree hash and the current confirmation tag),
   * initializeEpoch (from the init secret, the commit secret, the new
   * context and the PSK secret), createSecretTree (from the leaf count and
   * the encryption secret), the private key path of the next epoch (from
   * the current one, the new leaf key and the path secrets), and
   * encodeRatchetTree.
   */
  datatype CommitOps<!N> = CommitOps(
    applyProposals: seq<ProposalOrRef> -> Result<ApplyProposalsResult>,
    nextEpochContext: (GroupContext, WireformatName, FramedContent, seq<byte>, seq<byte>, seq<byte>) -> GroupContext,
    initializeEpoch: (seq<byte>, seq<byte>, GroupContext, seq<byte>) -> EpochSecrets,
    createSecretTree: (nat, seq<byte>) -> SecretTree<N>,
    privateKeysAfter: (PrivateKeyPath, Option<seq<byte>>, seq<PathSecret>) -> PrivateKeyPath,
    encodeTree: RatchetTree -> seq<byte>)

  datatype CreateCommitResult<N> = CreateCommitResult(newState: ClientState<N>, welcome: Option<Welcome>, commit: MlsMessage)

  /** The options of createCommit. */
  datatype CommitOptions = CommitOptions(
    wireAsPublicMessage: bool,
    extraProposals: seq<Proposal>,
    ratchetTreeExtension: bool,
    groupInfoExtensions: seq<Extension>,
    authenticatedData: seq<byte>)

  /** The wire format of the commit. */
  function CommitWireformat(publicMessage: bool): WireformatName {
    if publicMessage then MlsPublicMessage else MlsPrivateMessage
  }

  /** The framed commit and its signature for a plan: the committer is the member at its own leaf. */
  function SignedCommit<N>(state: ClientState<N>, plan: CommitPlan, options: CommitOptions, cs: CiphersuiteImpl): (FramedContent, seq<byte>) {
    CreateContentCommitSignature(state.groupContext, CommitWireformat(options.wireAsPublicMessage), Commit(plan.proposals, plan.updatePath),
      Member(state.privatePath.leafIndex), options.authenticatedData, state.signaturePrivateKey, cs.signature)
  }

  /** What the next epoch is made of: the signed commit, the new group context, the epoch secrets and the confirmation tag. */
  datatype NextEpoch = NextEpoch(content: FramedContent, signature: seq<byte>, groupContext: GroupContext, secrets: EpochSecrets,
    confirmationTag: seq<byte>)

  /**
   * The next epoch of a plan: the commit signed in the current context,
   * the context advanced over it with the current extensions replaced and
   * the new tree's hash, the epoch secrets from the commit and PSK secrets,
   * and the confirmation tag over the new confirmed transcript hash. Fails
   * only when the new tree has no hash.
   */
  function NextEpochOf<N>(state: ClientState<N>, plan: CommitPlan, options: CommitOptions, cs: CiphersuiteImpl, ops: CommitOps<N>)
    : (r: Result<NextEpoch>)
    ensures r.Ok? <==> TreeHashRoot(plan.tree, cs.hash).Ok?
    ensures r.Ok? ==>
      var e := r.value;
      (e.content, e.signature) == SignedCommit(state, plan, options, cs)
      && e.groupContext == ops.nextEpochContext(state.groupContext.(extensions := plan.extensions), CommitWireformat(options.wireAsPublicMessage),
        e.content, e.signature, TreeHashRoot(plan.tree, cs.hash).value, state.confirmationTag)
      && e.secrets == ops.initializeEpoch(state.keySchedule.initSecret, plan.commitSecret, e.groupContext, plan.applied.pskSecret)
      && e.confirmationTag == CreateConfirmationTag(cs.hash, e.secrets.confirmationKey, e.groupContext.confirmedTranscriptHash)
  {
    var (content, signature) := SignedCommit(state, plan, options, cs);
    var treeHash := TreeHashRoot(plan.tree, cs.hash);
    if treeHash.Err? then Err(treeHash.error)
    else
      var groupContext := ops.nextEpochContext(state.groupContext.(extensions := plan.extensions), CommitWireformat(options.wireAsPublicMessage),
        content, signature, treeHash.value, state.confirmationTag);
      var secrets := ops.initializeEpoch(state.keySchedule.initSecret, plan.commitSecret, groupContext, plan.applied.pskSecret);
      Ok(NextEpoch(content, signature, groupContext, secrets,
        CreateConfirmationTag(cs.hash, secrets.confirmationKey, groupContext.confirmedTranscriptHash)))
  }

  /**
   * The member's state in the next epoch: the new context, tree, key
   * schedule and private keys, a fresh secret tree, the new confirmation
   * tag, no proposals pending, the active state the plan leads to, and
   * the same signing key and padding.
   */
  function NextState<N>(state: ClientState<N>, plan: CommitPlan, e: NextEpoch, ops: CommitOps<N>): (r: ClientState<N>)
    ensures r.Valid() && r.unappliedProposals == [] && r.ratchetTree == plan.tree && r.groupContext == e.groupContext
    ensures r.groupActiveState == plan.activeState && r.confirmationTag == e.confirmationTag
    ensures r.keySchedule == e.secrets.keySchedule
    ensures r.secretTree == ops.createSecretTree(LeafWidth(|plan.tree|), e.secrets.encryptionSecret)
    ensures r.privatePath == ops.privateKeysAfter(state.privatePath, plan.newPrivateKey, plan.pathSecrets)
    ensures r.signaturePrivateKey == state.signaturePrivateKey && r.padding == state.padding
  {
    ClientState(e.groupContext, plan.tree, ops.createSecretTree(LeafWidth(|plan.tree|), e.secrets.encryptionSecret), e.secrets.keySchedule,
      ops.privateKeysAfter(state.privatePath, plan.newPrivateKey, plan.pathSecrets), [], e.confirmationTag, state.signaturePrivateKey,
      plan.activeState, state.padding)
  }

  /** The Welcome of a commit, for the new epoch's context, tree and secrets. */
  function CommitWelcome<N>(state: ClientState<N>, plan: CommitPlan, e: NextEpoch, options: CommitOptions, cs: CiphersuiteImpl,
    ops: CommitOps<N>): Result<Option<Welcome>>
  {
    CreateWelcome(options.ratchetTreeExtension, e.groupContext, e.confirmationTag, state, plan.tree, ops.encodeTree(plan.tree), cs,
      WelcomeSecrets(e.secrets.joinerSecret, e.secrets.welcomeSecret), plan.applied, plan.pathSecrets, options.groupInfoExtensions)
  }

  /**
   * createCommit: the plan, the next epoch, the protected commit, the
   * Welcome and the next state. The secret tree protectCommit returns is
   * dropped, as the new epoch has its own.
   */
  function CreateCommit<N>(state: ClientState<N>, options: CommitOptions, cs: CiphersuiteImpl, ops: CommitOps<N>, treeOps: SecretTreeOps<N>,
    freshPathSecret: seq<byte>): (r: Result<CreateCommitResult<N>>)
    ensures !state.groupActiveState.Active? ==> r == Err(UsageError)
    ensures var plan := PlanCommit(state, options.extraProposals, ops.applyProposals, cs, freshPathSecret);
      plan.Err? ==> r == Err(plan.error)
    ensures r.Ok? ==>
      var plan := PlanCommit(state, options.extraProposals, ops.applyProposals, cs, freshPathSecret);
      plan.Ok? && NextEpochOf(state, plan.value, options, cs, ops).Ok?
    ensures r.Ok? ==>
      var plan := PlanCommit(state, options.extraProposals, ops.applyProposals, cs, freshPathSecret).value;
      var e := NextEpochOf(state, plan, options, cs, ops).value;
      var p := ProtectCommit(options.wireAsPublicMessage, state, options.authenticatedData, e.content, AuthCommit(e.signature, e.confirmationTag),
        cs, treeOps);
      r.value.newState == NextState(state, plan, e, ops)
      && Ok(r.value.welcome) == CommitWelcome(state, plan, e, options, cs, ops)
      && p.Ok? && r.value.commit == p.value.message
  {
    var planned := PlanCommit(state, options.extraProposals, ops.applyProposals, cs, freshPathSecret);
    if planned.Err? then Err(planned.error)
    else
      var plan := planned.value;
      var next := NextEpochOf(state, plan, options, cs, ops);
      if next.Err? then Err(next.error)
      else
        var e := next.value;
        var protected := ProtectCommit(options.wireAsPublicMessage, state, options.authenticatedData, e.content,
          AuthCommit(e.signature, e.confirmationTag), cs, treeOps);
        if protected.Err? then Err(protected.error)
        else
          var welcome := CommitWelcome(state, plan, e, options, cs, ops);
          if welcome.Err? then Err(welcome.error)
          else Ok(CreateCommitResult(NextState(state, plan, e, ops), welcome.value, protected.value.message))
  }

  /**
   * A public commit passes the checks of any member still in the current
   * epoch that shares its membership key and holds the committer's leaf
   * with the public key of its signing key.
   */
  lemma PublicCommitAccepted<N>(state: ClientState<N>, options: CommitOptions, cs: CiphersuiteImpl, ops: CommitOps<N>,
    treeOps: SecretTreeOps<N>, freshPathSecret: seq<byte>, receiverTree: RatchetTree, publicKey: seq<byte>)
    requires options.wireAsPublicMessage
    requires MacConsistent(cs.hash) && SignatureConsistent(cs.signature, publicKey, state.signaturePrivateKey)
    requires GetSignaturePublicKeyFromLeafIndex(receiverTree, state.privatePath.leafIndex as nat) == Ok(publicKey)
    requires CreateCommit(state, options, cs, ops, treeOps, freshPathSecret).Ok?
    ensures var c := CreateCommit(state, options, cs, ops, treeOps, freshPathSecret).value.commit;
      c.content.MlsPublicMessageContent?
      && UnprotectPublicMessage(state.keySchedule.membershipKey, state.groupContext, receiverTree, c.content.publicMessage, cs, None).Ok?
  {
    var plan := PlanCommit(state, options.extraProposals, ops.applyProposals, cs, freshPathSecret).value;
    var e := NextEpochOf(state, plan, options, cs, ops).value;
    SignedPublicCommitUnprotects(state, Commit(plan.proposals, plan.updatePath), options.authenticatedData, e.confirmationTag, cs, treeOps,
      receiverTree, publicKey);
  }

  /** The public message protectCommit makes of a member's signed commit passes the checks of a member as above. */
  lemma SignedPublicCommitUnprotects<N>(state: ClientState<N>, c: Commit, authenticatedData: seq<byte>, confirmationTag: seq<byte>,
    cs: CiphersuiteImpl, treeOps: SecretTreeOps<N>, receiverTree: RatchetTree, publicKey: seq<byte>)
    requires MacConsistent(cs.hash) && SignatureConsistent(cs.signature, publicKey, state.signaturePrivateKey)
    requires GetSignaturePublicKeyFromLeafIndex(receiverTree, state.privatePath.leafIndex as nat) == Ok(publicKey)
    ensures var (content, signature) := CreateContentCommitSignature(state.groupContext, MlsPublicMessage, c, Member(state.privatePath.leafIndex),
        authenticatedData, state.signaturePrivateKey, cs.signature);
      var p := ProtectCommit(true, state, authenticatedData, content, AuthCommit(signature, confirmationTag), cs, treeOps);
      p.Ok? && p.value.message.content.MlsPublicMessageContent?
      && UnprotectPublicMessage(state.keySchedule.membershipKey, state.groupContext, receiverTree, p.value.message.content.publicMessage, cs, None).Ok?
  {
    var (content, signature) := CreateContentCommitSignature(state.groupContext, MlsPublicMessage, c, Member(state.privatePath.leafIndex),
      authenticatedData, state.signaturePrivateKey, cs.signature);
    var auth := AuthCommit(signature, confirmationTag);
    CommitSignatureVerifies(state.groupContext, MlsPublicMessage, c, Member(state.privatePath.leafIndex),
      authenticatedData, cs.signature, publicKey, state.signaturePrivateKey, confirmationTag);
    assert content.sender == Member(state.privatePath.leafIndex) && content.info.CommitData?;
    MemberMessageUnprotects(state.keySchedule.membershipKey, state.groupContext, receiverTree, content, auth, publicKey, cs);
  }

  // ---------------------------------------------------------------------
  // applyUpdatePathSecret
  // ---------------------------------------------------------------------

  /** filterNewLeaves: the resolution without the excluded nodes, in its order. */
  function FilterNewLeaves(resolution: seq<NodeIndex>, excludeNodes: seq<NodeIndex>): (r: seq<NodeIndex>)
    ensures |r| <= |resolution|
    ensures forall x :: x in r <==> x in resolution && x !in excludeNodes
    decreases |resolution|
  {
    if resolution == [] then []
    else
      var rest := FilterNewLeaves(resolution[1..], excludeNodes);
      assert resolution == [resolution[0]] + resolution[1..];
      if resolution[0] in excludeNodes then rest else [resolution[0]] + rest
  }

  /** Filtering keeps order: filtering a concatenation concatenates the filtered parts. */
  lemma {:induction false} FilterNewLeavesAppend(a: seq<NodeIndex>, b: seq<NodeIndex>, excludeNodes: seq<NodeIndex>)
    ensures FilterNewLeaves(a + b, excludeNodes) == FilterNewLeaves(a, excludeNodes) + FilterNewLeaves(b, excludeNodes)
    decreases |a|
  {
    if a == [] {
      assert a + b == b;
    } else {
      assert (a + b)[1..] == a[1..] + b;
      FilterNewLeavesAppend(a[1..], b, excludeNodes);
    }
  }

  /** With nothing of the resolution excluded, the filter keeps it whole. */
  lemma {:induction false} FilterNewLeavesNothingExcluded(resolution: seq<NodeIndex>, excludeNodes: seq<NodeIndex>)
    requires forall x :: x in resolution ==> x !in excludeNodes
    ensures FilterNewLeaves(resolution, excludeNodes) == resolution
    decreases |resolution|
  {
    if resolution != [] {
      var head := resolution[0];
      var tail := resolution[1..];
      assert resolution == [head] + tail;
      assert head !in excludeNodes;
      FilterNewLeavesNothingExcluded(tail, excludeNodes);
      assert FilterNewLeaves(resolution, excludeNodes) == [head] + FilterNewLeaves(tail, excludeNodes);
    }
  }

  /** The filter drops something exactly when some node of the resolution is excluded. */
  lemma {:induction false} FilterNewLeavesDrops(resolution: seq<NodeIndex>, excludeNodes: seq<NodeIndex>)
    ensures |FilterNewLeaves(resolution, excludeNodes)| < |resolution| <==>
      exists i :: 0 <= i < |resolution| && resolution[i] in excludeNodes
    decreases |resolution|
  {
    if resolution != [] {
      var tail := resolution[1..];
      FilterNewLeavesDrops(tail, excludeNodes);
      if exists i :: 0 <= i < |tail| && tail[i] in excludeNodes {
        var i :| 0 <= i < |tail| && tail[i] in excludeNodes;
        assert resolution[i + 1] == tail[i];
      }
      if exists i :: 0 <= i < |resolution| && resolution[i] in excludeNodes {
        var i :| 0 <= i < |resolution| && resolution[i] in excludeNodes;
        if i > 0 {
          assert tail[i - 1] == resolution[i];
        }
      }
    }
  }

  /** The first position in `candidates`, from `i` on, of a node the member holds a private key for. */
  function FirstKeyedPosition(candidates: seq<NodeIndex>, privateKeys: map<NodeIndex, seq<byte>>, i: nat): (r: Option<nat>)
    requires i <= |candidates|
    ensures r.Some? ==>
      i <= r.value < |candidates| && candidates[r.value] in privateKeys
      && forall m :: i <= m < r.value ==> candidates[m] !in privateKeys
    ensures r.None? <==> forall m :: i <= m < |candidates| ==> candidates[m] !in privateKeys
    decreases |candidates| - i
  {
    if i == |candidates| then None
    else if candidates[i] in privateKeys then Some(i)
    else FirstKeyedPosition(candidates, privateKeys, i + 1)
  }

  datatype PathSecretResult = PathSecretResult(nodeIndex: NodeIndex, pathSecret: seq<byte>)

  /**
   * What applyUpdatePathSecret computes: at the sender's first path node
   * above the member, the ciphertext at the position, among the filtered
   * copath resolution, of the first node the member holds a key for,
   * decrypted with that key under label "UpdatePathNode" and the encoded
   * group context. An InternalError when the member holds no key there or
   * the path has no ciphertext at that position; a ciphertext that does not
   * open is a CryptoVerificationError.
   */
  function UpdatePathSecretOf(tree: RatchetTree, privatePath: PrivateKeyPath, senderLeafIndex: LeafIndex, groupContext: GroupContext,
    path: UpdatePath, excludeNodes: seq<NodeIndex>, cs: CiphersuiteImpl): (r: Result<PathSecretResult>)
    requires senderLeafIndex < TreeLeafCount(tree)
  {
    var found := FirstMatchAncestorOf(tree, privatePath.leafIndex as nat, senderLeafIndex, path);
    if found.Err? then Err(found.error) else SecretAtMatch(found.value, privatePath, excludeNodes, groupContext, cs)
  }

  /** The part of UpdatePathSecretOf after the ancestor is found. */
  function SecretAtMatch(m: AncestorMatch, privatePath: PrivateKeyPath, excludeNodes: seq<NodeIndex>, groupContext: GroupContext,
    cs: CiphersuiteImpl): (r: Result<PathSecretResult>)
  {
    var candidates := FilterNewLeaves(m.resolution, excludeNodes);
    match FirstKeyedPosition(candidates, privatePath.privateKeys, 0)
    case None => Err(InternalError)
    case Some(i) =>
      if m.updateNode.None? || i >= |m.updateNode.value.encryptedPathSecret| then Err(InternalError)
      else
        var ct := m.updateNode.value.encryptedPathSecret[i];
        var secret := DecryptWithLabel(cs.hpke, privatePath.privateKeys[candidates[i]], "UpdatePathNode", EncodeGroupContext(groupContext),
          ct.kemOutput, ct.ciphertext);
        if secret.None? then Err(CryptoVerificationError) else Ok(PathSecretResult(m.nodeIndex, secret.value))
  }

  /**
   * applyUpdatePathSecret: the early-return loop over the filtered copath
   * resolution of the first matching ancestor.
   */
  method ApplyUpdatePathSecret(tree: RatchetTree, privatePath: PrivateKeyPath, senderLeafIndex: LeafIndex, groupContext: GroupContext,
    path: UpdatePath, excludeNodes: seq<NodeIndex>, cs: CiphersuiteImpl) returns (r: Result<PathSecretResult>)
    requires senderLeafIndex < TreeLeafCount(tree)
    ensures r == UpdatePathSecretOf(tree, privatePath, senderLeafIndex, groupContext, path, excludeNodes, cs)
  {
    var found := FirstMatchAncestor(tree, privatePath.leafIndex as nat, senderLeafIndex, path);
    if found.Err? {
      return Err(found.error);
    }
    var m := found.value;
    ghost var spec := SecretAtMatch(m, privatePath, excludeNodes, groupContext, cs);
    assert UpdatePathSecretOf(tree, privatePath, senderLeafIndex, groupContext, path, excludeNodes, cs) == spec;
    var candidates := FilterNewLeaves(m.resolution, excludeNodes);
    var i := 0;
    while i < |candidates|
      invariant i <= |candidates|
      invariant FirstKeyedPosition(candidates, privatePath.privateKeys, i) == FirstKeyedPosition(candidates, privatePath.privateKeys, 0)
    {
      var nodeIndex := candidates[i];
      if nodeIndex in privatePath.privateKeys {
        assert FirstKeyedPosition(candidates, privatePath.privateKeys, 0) == Some(i);
        var key := privatePath.privateKeys[nodeIndex];
        if m.updateNode.None? || i >= |m.updateNode.value.encryptedPathSecret| {
          return Err(InternalError);
        }
        var ct := m.updateNode.value.encryptedPathSecret[i];
        var pathSecret := DecryptWithLabel(cs.hpke, key, "UpdatePathNode", EncodeGroupContext(groupContext), ct.kemOutput, ct.ciphertext);
        if pathSecret.None? {
          return Err(CryptoVerificationError);
        }
        return Ok(PathSecretResult(m.nodeIndex, pathSecret.value));
      }
      i := i + 1;
    }
    return Err(InternalError);
  }

  /**
   * A member holding no keys for the nodes of the filtered resolution gets
   * the InternalError of "no overlap".
   */
  lemma NoKeyNoSecret(tree: RatchetTree, privatePath: PrivateKeyPath, senderLeafIndex: LeafIndex, groupContext: GroupContext,
    path: UpdatePath, excludeNodes: seq<NodeIndex>, cs: CiphersuiteImpl)
    requires senderLeafIndex < TreeLeafCount(tree)
    requires FirstMatchAncestorOf(tree, privatePath.leafIndex as nat, senderLeafIndex, path).Ok?
    requires var m := FirstMatchAncestorOf(tree, privatePath.leafIndex as nat, senderLeafIndex, path).value;
      forall x :: x in m.resolution && x !in excludeNodes ==> x !in privatePath.privateKeys
    ensures UpdatePathSecretOf(tree, privatePath, senderLeafIndex, groupContext, path, excludeNodes, cs) == Err(InternalError)
  {
    var m := FirstMatchAncestorOf(tree, privatePath.leafIndex as nat, senderLeafIndex, path).value;
    var candidates := FilterNewLeaves(m.resolution, excludeNodes);
    assert forall j :: 0 <= j < |candidates| ==> candidates[j] in candidates;
  }

  /**
   * The converse: a member holding the key of a node of the filtered
   * resolution, at a match whose update node has a ciphertext for every
   * node there, gets the path secret or a failed decryption, never an
   * InternalError.
   */
  lemma KeyedMemberFindsSecret(tree: RatchetTree, privatePath: PrivateKeyPath, senderLeafIndex: LeafIndex, groupContext: GroupContext,
    path: UpdatePath, excludeNodes: seq<NodeIndex>, cs: CiphersuiteImpl, x: NodeIndex)
    requires senderLeafIndex < TreeLeafCount(tree)
    requires FirstMatchAncestorOf(tree, privatePath.leafIndex as nat, senderLeafIndex, path).Ok?
    requires var m := FirstMatchAncestorOf(tree, privatePath.leafIndex as nat, senderLeafIndex, path).value;
      x in m.resolution && x !in excludeNodes && x in privatePath.privateKeys
      && m.updateNode.Some? && |FilterNewLeaves(m.resolution, excludeNodes)| <= |m.updateNode.value.encryptedPathSecret|
    ensures var r := UpdatePathSecretOf(tree, privatePath, senderLeafIndex, groupContext, path, excludeNodes, cs);
      r.Ok? || r == Err(CryptoVerificationError)
  {
    var m := FirstMatchAncestorOf(tree, privatePath.leafIndex as nat, senderLeafIndex, path).value;
    var candidates := FilterNewLeaves(m.resolution, excludeNodes);
    assert x in candidates;
    var i :| 0 <= i < |candidates| && candidates[i] == x;
    assert FirstKeyedPosition(candidates, privatePath.privateKeys, 0).Some?;
  }

  /**
   * Step `j` of the sender's filtered direct path is the first one above
   * the member, no node of its resolution up to the `k`-th is excluded, and the first node
   * there the member holds a key for is the `k`-th, whose key is the
   * private half of that node's key in the tree.
   */
  ghost predicate MemberKeyedAtStep(tree: RatchetTree, privatePath: PrivateKeyPath, senderLeafIndex: LeafIndex, excludeNodes: seq<NodeIndex>,
    cs: CiphersuiteImpl, j: nat, k: nat)
    requires senderLeafIndex < TreeLeafCount(tree)
  {
    var fdp := FilteredDirectPathAndCopathResolution(senderLeafIndex, tree);
    var leaf := privatePath.leafIndex as nat;
    j < |fdp| && LeafAncestor(tree, leaf, fdp[j].nodeIndex)
    && (forall m :: 0 <= m < j ==> !LeafAncestor(tree, leaf, fdp[m].nodeIndex))
    && k < |fdp[j].resolution| && (forall m :: 0 <= m <= k ==> fdp[j].resolution[m] !in excludeNodes)
    && fdp[j].resolution[k] in privatePath.privateKeys
    && (forall m :: 0 <= m < k ==> fdp[j].resolution[m] !in privatePath.privateKeys)
    && NodeAt(tree, fdp[j].resolution[k]).Some?
    && HpkeConsistent(cs.hpke, GetHpkePublicKey(NodeAt(tree, fdp[j].resolution[k]).value), privatePath.privateKeys[fdp[j].resolution[k]])
  }

  /**
   * A member recovers the committer's path secret for their first common
   * ancestor: when the path was made by createUpdatePath from the tree the
   * member holds and the member is keyed at step `j` as above,
   * applyUpdatePathSecret returns the step's node and path secret
   * under the next epoch's group context.
   */
  lemma AppliedSecretIsCommittersSecret(tree: RatchetTree, privatePath: PrivateKeyPath, senderLeafIndex: LeafIndex,
    groupContext: GroupContext, signaturePrivateKey: seq<byte>, cs: CiphersuiteImpl, pathSecret: seq<byte>, excludeNodes: seq<NodeIndex>,
    j: nat, k: nat)
    requires senderLeafIndex < TreeLeafCount(tree)
    requires CreateUpdatePath(tree, senderLeafIndex, groupContext, signaturePrivateKey, cs, pathSecret).Ok?
    requires MemberKeyedAtStep(tree, privatePath, senderLeafIndex, excludeNodes, cs, j, k)
    ensures var fdp := FilteredDirectPathAndCopathResolution(senderLeafIndex, tree);
      var c := CreateUpdatePath(tree, senderLeafIndex, groupContext, signaturePrivateKey, cs, pathSecret).value;
      TreeHashRoot(c.tree, cs.hash).Ok? && |c.pathSecrets| == |fdp| && j < |fdp|
      && UpdatePathSecretOf(tree, privatePath, senderLeafIndex, NextEpochContext(groupContext, TreeHashRoot(c.tree, cs.hash).value),
        c.updatePath, excludeNodes, cs) == Ok(PathSecretResult(fdp[j].nodeIndex, c.pathSecrets[j].secret))
  {
    var fdp := FilteredDirectPathAndCopathResolution(senderLeafIndex, tree);
    var c := CreateUpdatePath(tree, senderLeafIndex, groupContext, signaturePrivateKey, cs, pathSecret).value;
    assert j < |fdp|;
    var key := privatePath.privateKeys[fdp[j].resolution[k]];
    CreatedPathDecrypts(tree, senderLeafIndex, groupContext, signaturePrivateKey, cs, pathSecret, j, k, key);
    FirstMatchIsStep(tree, privatePath.leafIndex as nat, senderLeafIndex, c.updatePath, j);
    var m := AncestorMatch(fdp[j].nodeIndex, fdp[j].resolution, Some(c.updatePath.nodes[j]));
    SecretAtKeyedPosition(m, privatePath, excludeNodes, NextEpochContext(groupContext, TreeHashRoot(c.tree, cs.hash).value), cs, k,
      c.pathSecrets[j].secret);
  }

  /**
   * The case the lemma above leaves out: when a node of the step's copath
   * resolution before the member's is excluded, the member's position `s`
   * in the filtered resolution falls short of its position `k` in the
   * resolution createUpdatePath encrypts to, so the ciphertext it opens with
   * its key is the one sealed to the `s`-th node of that resolution.
   */
  lemma ExcludedNodeShiftsCiphertext(tree: RatchetTree, privatePath: PrivateKeyPath, senderLeafIndex: LeafIndex,
    groupContext: GroupContext, signaturePrivateKey: seq<byte>, cs: CiphersuiteImpl, pathSecret: seq<byte>, excludeNodes: seq<NodeIndex>,
    j: nat, k: nat)
    requires senderLeafIndex < TreeLeafCount(tree)
    requires CreateUpdatePath(tree, senderLeafIndex, groupContext, signaturePrivateKey, cs, pathSecret).Ok?
    requires var fdp := FilteredDirectPathAndCopathResolution(senderLeafIndex, tree);
      var leaf := privatePath.leafIndex as nat;
      j < |fdp| && LeafAncestor(tree, leaf, fdp[j].nodeIndex)
      && (forall m :: 0 <= m < j ==> !LeafAncestor(tree, leaf, fdp[m].nodeIndex))
      && k < |fdp[j].resolution| && fdp[j].resolution[k] in privatePath.privateKeys && fdp[j].resolution[k] !in excludeNodes
      && (forall m :: 0 <= m < k ==> fdp[j].resolution[m] !in privatePath.privateKeys)
      && (exists m :: 0 <= m < k && fdp[j].resolution[m] in excludeNodes)
    ensures var fdp := FilteredDirectPathAndCopathResolution(senderLeafIndex, tree);
      var c := CreateUpdatePath(tree, senderLeafIndex, groupContext, signaturePrivateKey, cs, pathSecret).value;
      var s := |FilterNewLeaves(fdp[j].resolution[..k], excludeNodes)|;
      TreeHashRoot(c.tree, cs.hash).Ok? && s < k && j < |c.updatePath.nodes| && j < |c.pathSecrets|
      && |c.updatePath.nodes[j].encryptedPathSecret| == |fdp[j].resolution|
      && var ctx := NextEpochContext(groupContext, TreeHashRoot(c.tree, cs.hash).value);
      var ct := c.updatePath.nodes[j].encryptedPathSecret[s];
      Ok(ct) == EncryptToNode(tree, EncodeGroupContext(ctx), cs.hpke, c.pathSecrets[j].secret, fdp[j].resolution[s])
      && UpdatePathSecretOf(tree, privatePath, senderLeafIndex, ctx, c.updatePath, excludeNodes, cs) ==
        (var secret := DecryptWithLabel(cs.hpke, privatePath.privateKeys[fdp[j].resolution[k]], "UpdatePathNode",
           EncodeGroupContext(ctx), ct.kemOutput, ct.ciphertext);
         if secret.None? then Err(CryptoVerificationError) else Ok(PathSecretResult(fdp[j].nodeIndex, secret.value)))
  {
    var fdp := FilteredDirectPathAndCopathResolution(senderLeafIndex, tree);
    var c := CreateUpdatePath(tree, senderLeafIndex, groupContext, signaturePrivateKey, cs, pathSecret).value;
    var m := AncestorMatch(fdp[j].nodeIndex, fdp[j].resolution, Some(c.updatePath.nodes[j]));
    var ctx := NextEpochContext(groupContext, TreeHashRoot(c.tree, cs.hash).value);
    SecretAtShiftedPosition(m, privatePath, excludeNodes, ctx, cs, k);
    var s := |FilterNewLeaves(fdp[j].resolution[..k], excludeNodes)|;
    CreatedCiphertextSealedTo(tree, senderLeafIndex, groupContext, signaturePrivateKey, cs, pathSecret, j, s);
    FirstMatchIsStep(tree, privatePath.leafIndex as nat, senderLeafIndex, c.updatePath, j);
  }

  /**
   * At a match where the member's first keyed node is the `k`-th of the
   * resolution, the receiver opens, with that node's key, the ciphertext at
   * the node's position `s` in the filtered resolution: `s` is `k` less the
   * excluded nodes before it, so it falls short of `k` exactly when one of
   * them is excluded.
   */
  lemma SecretAtShiftedPosition(m: AncestorMatch, privatePath: PrivateKeyPath, excludeNodes: seq<NodeIndex>, groupContext: GroupContext,
    cs: CiphersuiteImpl, k: nat)
    requires k < |m.resolution| && m.resolution[k] in privatePath.privateKeys && m.resolution[k] !in excludeNodes
    requires forall i :: 0 <= i < k ==> m.resolution[i] !in privatePath.privateKeys
    ensures var s := |FilterNewLeaves(m.resolution[..k], excludeNodes)|;
      s <= k && (s < k <==> exists i :: 0 <= i < k && m.resolution[i] in excludeNodes) &&
      SecretAtMatch(m, privatePath, excludeNodes, groupContext, cs) ==
        (if m.updateNode.None? || s >= |m.updateNode.value.encryptedPathSecret| then Err(InternalError)
         else
           var ct := m.updateNode.value.encryptedPathSecret[s];
           var secret := DecryptWithLabel(cs.hpke, privatePath.privateKeys[m.resolution[k]], "UpdatePathNode",
             EncodeGroupContext(groupContext), ct.kemOutput, ct.ciphertext);
           if secret.None? then Err(CryptoVerificationError) else Ok(PathSecretResult(m.nodeIndex, secret.value)))
  {
    var r := m.resolution;
    FilterAround(r, excludeNodes, k);
    FilterNewLeavesDrops(r[..k], excludeNodes);
    assert forall i :: 0 <= i < k ==> r[..k][i] == r[i];
    FirstKeyedAfterFiltered(r, excludeNodes, privatePath.privateKeys, k);
  }

  /** The filtered resolution around a kept node: what is kept before it, the node, what is kept after it. */
  lemma FilterAround(r: seq<NodeIndex>, excludeNodes: seq<NodeIndex>, k: nat)
    requires k < |r| && r[k] !in excludeNodes
    ensures FilterNewLeaves(r, excludeNodes) == FilterNewLeaves(r[..k], excludeNodes) + [r[k]] + FilterNewLeaves(r[k + 1..], excludeNodes)
  {
    var t := r[k..];
    assert t != [] && t[0] == r[k] && t[1..] == r[k + 1..];
    assert FilterNewLeaves(t, excludeNodes) == [r[k]] + FilterNewLeaves(r[k + 1..], excludeNodes);
    assert r == r[..k] + t;
    FilterNewLeavesAppend(r[..k], t, excludeNodes);
  }

  /** With no key before the `k`-th node, the first keyed position of the filtered resolution is where that node lands. */
  lemma FirstKeyedAfterFiltered(r: seq<NodeIndex>, excludeNodes: seq<NodeIndex>, keys: map<NodeIndex, seq<byte>>, k: nat)
    requires k < |r| && r[k] !in excludeNodes && r[k] in keys
    requires forall i :: 0 <= i < k ==> r[i] !in keys
    ensures var candidates := FilterNewLeaves(r, excludeNodes);
      var s := |FilterNewLeaves(r[..k], excludeNodes)|;
      s < |candidates| && candidates[s] == r[k] && FirstKeyedPosition(candidates, keys, 0) == Some(s)
  {
    var before := FilterNewLeaves(r[..k], excludeNodes);
    FilterAround(r, excludeNodes, k);
    var candidates := FilterNewLeaves(r, excludeNodes);
    assert candidates[|before|] == r[k];
    forall i | 0 <= i < |before|
      ensures candidates[i] !in keys
    {
      assert candidates[i] == before[i] && before[i] in before;
      assert before[i] in r[..k];
    }
  }

  /** At a match none of whose nodes up to the member's first keyed one is excluded, the secret is that node's ciphertext, decrypted. */
  lemma SecretAtKeyedPosition(m: AncestorMatch, privatePath: PrivateKeyPath, excludeNodes: seq<NodeIndex>, groupContext: GroupContext,
    cs: CiphersuiteImpl, k: nat, secret: seq<byte>)
    requires k < |m.resolution| && forall i :: 0 <= i <= k ==> m.resolution[i] !in excludeNodes
    requires m.resolution[k] in privatePath.privateKeys
    requires forall i :: 0 <= i < k ==> m.resolution[i] !in privatePath.privateKeys
    requires m.updateNode.Some? && k < |m.updateNode.value.encryptedPathSecret|
    requires var ct := m.updateNode.value.encryptedPathSecret[k];
      DecryptWithLabel(cs.hpke, privatePath.privateKeys[m.resolution[k]], "UpdatePathNode", EncodeGroupContext(groupContext),
        ct.kemOutput, ct.ciphertext) == Some(secret)
    ensures SecretAtMatch(m, privatePath, excludeNodes, groupContext, cs) == Ok(PathSecretResult(m.nodeIndex, secret))
  {
    SecretAtShiftedPosition(m, privatePath, excludeNodes, groupContext, cs, k);
  }

  /** The match firstMatchAncestor returns is the one at the first step above the member. */
  lemma FirstMatchIsStep(tree: RatchetTree, leafIndex: LeafIndex, senderLeafIndex: LeafIndex, path: UpdatePath, j: nat)
    requires senderLeafIndex < TreeLeafCount(tree)
    requires var fdp := FilteredDirectPathAndCopathResolution(senderLeafIndex, tree);
      j < |fdp| && LeafAncestor(tree, leafIndex, fdp[j].nodeIndex)
      && forall m :: 0 <= m < j ==> !LeafAncestor(tree, leafIndex, fdp[m].nodeIndex)
    ensures var fdp := FilteredDirectPathAndCopathResolution(senderLeafIndex, tree);
      FirstMatchAncestorOf(tree, leafIndex, senderLeafIndex, path)
        == Ok(AncestorMatch(fdp[j].nodeIndex, fdp[j].resolution, if j < |path.nodes| then Some(path.nodes[j]) else None))
  {
  }

  // ---------------------------------------------------------------------
  // joinGroupExternal
  // ---------------------------------------------------------------------

  /**
   * The steps of joinGroupExternal that live in modules not part of this
   * model: decoding the tree, validating it and the signer's credential,
   * comparing the joiner's key package with a leaf, exporting the init
   * secret to the external public key (the KEM output and the secret),
   * removing and adding a leaf (the new tree and the new leaf's node
   * index), the epoch steps as in CommitOps, and the private key path of
   * the joiner (from its path secrets, its leaf and its leaf's private key).
   */
  datatype ExternalJoinOps<!N> = ExternalJoinOps(
    decodeTree: Decoder<RatchetTree>,
    validateRatchetTree: (RatchetTree, GroupContext) -> Option<MlsError>,
    validateCredential: (Credential, seq<byte>) -> bool,
    compareKeyPackageToLeafNode: (KeyPackage, LeafNode) -> bool,
    exportSecret: seq<byte> -> (seq<byte>, seq<byte>),
    removeLeafNode: (RatchetTree, LeafIndex) -> RatchetTree,
    addLeafNode: (RatchetTree, LeafNode) -> (RatchetTree, NodeIndex),
    nextEpochContext: (GroupContext, WireformatName, FramedContent, seq<byte>, seq<byte>, seq<byte>) -> GroupContext,
    initializeEpoch: (seq<byte>, seq<byte>, GroupContext, seq<byte>) -> EpochSecrets,
    createSecretTree: (nat, seq<byte>) -> SecretTree<N>,
    joinerPrivateKeys: (seq<PathSecret>, LeafIndex, seq<byte>) -> PrivateKeyPath)

  /** The credential of the leaf node at a leaf's slot; a blank or parent slot is an internal error. */
  function GetCredentialFromLeafIndex(tree: RatchetTree, leafIndex: LeafIndex): (r: Result<Credential>)
    ensures r.Ok? <==> GetSignaturePublicKeyFromLeafIndex(tree, leafIndex).Ok?
    ensures r.Ok? ==> (NodeAt(tree, LeafToNodeIndex(leafIndex)).Some? && NodeAt(tree, LeafToNodeIndex(leafIndex)).value.NodeLeaf?
      && r.value == NodeAt(tree, LeafToNodeIndex(leafIndex)).value.leaf.data.credential)
  {
    match NodeAt(tree, LeafToNodeIndex(leafIndex))
    case Some(NodeLeaf(l)) => Ok(l.data.credential)
    case _ => Err(InternalError)
  }

  /** The first slot, from `x` on, holding a leaf the key package matches (the source's `findIndex`). */
  function FirstMatchingLeaf(tree: RatchetTree, keyPackage: KeyPackage, compare: (KeyPackage, LeafNode) -> bool, x: nat): (r: Option<NodeIndex>)
    requires x <= |tree|
    ensures r.Some? ==>
      x <= r.value < |tree| && tree[r.value].Some? && tree[r.value].value.NodeLeaf? && compare(keyPackage, tree[r.value].value.leaf)
    ensures r.Some? ==> forall y :: x <= y < r.value ==> !(tree[y].Some? && tree[y].value.NodeLeaf? && compare(keyPackage, tree[y].value.leaf))
    ensures r.None? <==> forall y :: x <= y < |tree| ==> !(tree[y].Some? && tree[y].value.NodeLeaf? && compare(keyPackage, tree[y].value.leaf))
    decreases |tree| - x
  {
    if x == |tree| then None
    else if tree[x].Some? && tree[x].value.NodeLeaf? && compare(keyPackage, tree[x].value.leaf) then Some(x)
    else FirstMatchingLeaf(tree, keyPackage, compare, x + 1)
  }

  /** What the checks of joinGroupExternal settle: the external public key, the group's tree and the leaf a resync replaces. */
  datatype ExternalJoinBasis = ExternalJoinBasis(externalPub: seq<byte>, ratchetTree: RatchetTree, formerLeafIndex: Option<uint32>)

  /** The tree of the group: the one of the ratchet_tree extension, else the one passed in. */
  function ExternalJoinTree(groupInfo: GroupInfo, tree: Option<RatchetTree>, decodeTree: Decoder<RatchetTree>): (r: Result<RatchetTree>)
    ensures var fromExtension := RatchetTreeFromExtension(groupInfo, decodeTree);
      (fromExtension.Err? ==> r == Err(fromExtension.error))
      && (fromExtension.Ok? && fromExtension.value.Some? ==> r == Ok(fromExtension.value.value))
      && (fromExtension.Ok? && fromExtension.value.None? ==> r == if tree.Some? then Ok(tree.value) else Err(UsageError))
  {
    var fromExtension := RatchetTreeFromExtension(groupInfo, decodeTree);
    if fromExtension.Err? then Err(fromExtension.error)
    else if fromExtension.value.Some? then Ok(fromExtension.value.value)
    else if tree.Some? then Ok(tree.value)
    else Err(UsageError)
  }

  /** The leaf an external resync replaces: that of the first leaf slot the key package matches. */
  function FormerLeafIndex(ratchetTree: RatchetTree, keyPackage: KeyPackage, resync: bool, compare: (KeyPackage, LeafNode) -> bool)
    : (r: Result<Option<uint32>>)
    ensures !resync ==> r == Ok(None)
    ensures resync ==> var found := FirstMatchingLeaf(ratchetTree, keyPackage, compare, 0);
      (r.Ok? <==> found.Some? && NodeToLeafIndex(found.value) < 0x1_0000_0000)
      && (r.Ok? ==> r.value == Some(NodeToLeafIndex(found.value) as uint32))
      && (r.Err? ==> r.error == InternalError)
  {
    if !resync then Ok(None)
    else
      var found := FirstMatchingLeaf(ratchetTree, keyPackage, compare, 0);
      if found.None? || NodeToLeafIndex(found.value) >= 0x1_0000_0000 then Err(InternalError)
      else Ok(Some(NodeToLeafIndex(found.value) as uint32))
  }

  /**
   * The checks of joinGroupExternal: the group info must carry an
   * external_pub extension and only extensions the joiner's capabilities
   * support (UsageErrors), a tree must be found, the tree must validate,
   * the signer's credential must validate (a ValidationError otherwise),
   * and the group info's signature must verify under the signer's key (a
   * CryptoVerificationError otherwise).
   */
  function ExternalJoinChecks<N>(groupInfo: GroupInfo, keyPackage: KeyPackage, resync: bool, tree: Option<RatchetTree>, cs: CiphersuiteImpl,
    ops: ExternalJoinOps<N>): (r: Result<ExternalJoinBasis>)
    ensures ExtensionsOfType(groupInfo.tbs.extensions, ExternalPubType) == [] ==> r == Err(UsageError)
    ensures ExtensionsOfType(groupInfo.tbs.extensions, ExternalPubType) != []
      && !ExtensionsSupportedByCapabilities(groupInfo.tbs.groupContext.extensions, keyPackage.leafNode.data.capabilities.extensions)
      ==> r == Err(UsageError)
    ensures r.Ok? <==>
      var pubs := ExtensionsOfType(groupInfo.tbs.extensions, ExternalPubType);
      var rt := ExternalJoinTree(groupInfo, tree, ops.decodeTree);
      var signer := groupInfo.tbs.signer as nat;
      pubs != [] && ExtensionsSupportedByCapabilities(groupInfo.tbs.groupContext.extensions, keyPackage.leafNode.data.capabilities.extensions)
      && rt.Ok? && ops.validateRatchetTree(rt.value, groupInfo.tbs.groupContext).None?
      && GetSignaturePublicKeyFromLeafIndex(rt.value, signer).Ok?
      && ops.validateCredential(GetCredentialFromLeafIndex(rt.value, signer).value, GetSignaturePublicKeyFromLeafIndex(rt.value, signer).value)
      && VerifyGroupInfoSignature(cs.signature, groupInfo, GetSignaturePublicKeyFromLeafIndex(rt.value, signer).value)
      && FormerLeafIndex(rt.value, keyPackage, resync, ops.compareKeyPackageToLeafNode).Ok?
    ensures r.Ok? ==>
      r.value.externalPub == ExtensionsOfType(groupInfo.tbs.extensions, ExternalPubType)[0].extensionData
      && Ok(r.value.ratchetTree) == ExternalJoinTree(groupInfo, tree, ops.decodeTree)
      && Ok(r.value.formerLeafIndex) == FormerLeafIndex(r.value.ratchetTree, keyPackage, resync, ops.compareKeyPackageToLeafNode)
    ensures r.Err? && r.error == ValidationError ==>
      var rt := ExternalJoinTree(groupInfo, tree, ops.decodeTree);
      rt.Ok? && (ops.validateRatchetTree(rt.value, groupInfo.tbs.groupContext) == Some(ValidationError)
        || (GetSignaturePublicKeyFromLeafIndex(rt.value, groupInfo.tbs.signer as nat).Ok?
          && !ops.validateCredential(GetCredentialFromLeafIndex(rt.value, groupInfo.tbs.signer as nat).value,
            GetSignaturePublicKeyFromLeafIndex(rt.value, groupInfo.tbs.signer as nat).value)))
  {
    var pubs := ExtensionsOfType(groupInfo.tbs.extensions, ExternalPubType);
    if pubs == [] then Err(UsageError)
    else if !ExtensionsSupportedByCapabilities(groupInfo.tbs.groupContext.extensions, keyPackage.leafNode.data.capabilities.extensions) then
      Err(UsageError)
    else
      var rt := ExternalJoinTree(groupInfo, tree, ops.decodeTree);
      if rt.Err? then Err(rt.error)
      else
        var invalid := ops.validateRatchetTree(rt.value, groupInfo.tbs.groupContext);
        if invalid.Some? then Err(invalid.value)
        else
          var signer := groupInfo.tbs.signer as nat;
          var key := GetSignaturePublicKeyFromLeafIndex(rt.value, signer);
          if key.Err? then Err(key.error)
          else if !ops.validateCredential(GetCredentialFromLeafIndex(rt.value, signer).value, key.value) then Err(ValidationError)
          else if !VerifyGroupInfoSignature(cs.signature, groupInfo, key.value) then Err(CryptoVerificationError)
          else
            var former := FormerLeafIndex(rt.value, keyPackage, resync, ops.compareKeyPackageToLeafNode);
            if former.Err? then Err(former.error)
            else Ok(ExternalJoinBasis(pubs[0].extensionData, rt.value, former.value))
  }

  /** The proposals of an external commit: the removal of the former leaf on a resync, then the external init. */
  function ExternalCommitProposals(formerLeafIndex: Option<uint32>, kemOutput: seq<byte>): (r: seq<Proposal>)
    ensures formerLeafIndex.None? ==> r == [ProposalExternalInit(kemOutput)]
    ensures formerLeafIndex.Some? ==> r == [ProposalRemove(formerLeafIndex.value), ProposalExternalInit(kemOutput)]
  {
    if formerLeafIndex.Some? then [ProposalRemove(formerLeafIndex.value), ProposalExternalInit(kemOutput)]
    else [ProposalExternalInit(kemOutput)]
  }

  /** Every proposal inline, in order. */
  function InlineAll(proposals: seq<Proposal>): (r: seq<ProposalOrRef>)
    ensures |r| == |proposals| && forall i :: 0 <= i < |proposals| ==> r[i] == Inline(proposals[i])
  {
    seq(|proposals|, i requires 0 <= i < |proposals| => Inline(proposals[i]))
  }

  datatype ExternalJoinResult<N> = ExternalJoinResult(publicMessage: PublicMessage, newState: ClientState<N>)

  /** The joiner's tree before its path: the former leaf removed on a resync, then its own leaf added. */
  function JoinerTree<N>(basis: ExternalJoinBasis, keyPackage: KeyPackage, ops: ExternalJoinOps<N>): (RatchetTree, NodeIndex) {
    var updatedTree := if basis.formerLeafIndex.Some? then ops.removeLeafNode(basis.ratchetTree, basis.formerLeafIndex.value as nat)
      else basis.ratchetTree;
    ops.addLeafNode(updatedTree, keyPackage.leafNode)
  }

  /** The joiner's new leaf and the update path it makes from there. */
  datatype JoinerPath = JoinerPath(newLeaf: LeafIndex, created: CreatedPath)

  /** The update path from the joiner's new leaf; a new leaf outside the tree is an InternalError. */
  function JoinerPathOf<N>(groupInfo: GroupInfo, keyPackage: KeyPackage, basis: ExternalJoinBasis, signaturePrivateKey: seq<byte>,
    cs: CiphersuiteImpl, ops: ExternalJoinOps<N>, pathSecret: seq<byte>): (r: Result<JoinerPath>)
    ensures var (joinerTree, newLeafNode) := JoinerTree(basis, keyPackage, ops);
      NodeToLeafIndex(newLeafNode) >= TreeLeafCount(joinerTree) ==> r == Err(InternalError)
    ensures var (joinerTree, newLeafNode) := JoinerTree(basis, keyPackage, ops);
      r.Ok? ==> (r.value.newLeaf == NodeToLeafIndex(newLeafNode) && r.value.newLeaf < TreeLeafCount(joinerTree)
        && CreateUpdatePath(joinerTree, r.value.newLeaf, groupInfo.tbs.groupContext, signaturePrivateKey, cs, pathSecret) == Ok(r.value.created))
  {
    var (joinerTree, newLeafNode) := JoinerTree(basis, keyPackage, ops);
    var newLeaf := NodeToLeafIndex(newLeafNode);
    if newLeaf >= TreeLeafCount(joinerTree) then Err(InternalError)
    else
      var created := CreateUpdatePath(joinerTree, newLeaf, groupInfo.tbs.groupContext, signaturePrivateKey, cs, pathSecret);
      if created.Err? then Err(created.error) else Ok(JoinerPath(newLeaf, created.value))
  }

  /**
   * When addLeafNode puts the key package's leaf at the leaf slot it
   * reports, the path made from there carries the key package's signature
   * key.
   */
  lemma JoinerPathKeepsSignatureKey<N>(groupInfo: GroupInfo, keyPackage: KeyPackage, basis: ExternalJoinBasis, signaturePrivateKey: seq<byte>,
    cs: CiphersuiteImpl, ops: ExternalJoinOps<N>, pathSecret: seq<byte>)
    requires var (t, x) := JoinerTree(basis, keyPackage, ops); x % 2 == 0 && NodeAt(t, x) == Some(NodeLeaf(keyPackage.leafNode))
    requires JoinerPathOf(groupInfo, keyPackage, basis, signaturePrivateKey, cs, ops, pathSecret).Ok?
    ensures JoinerPathOf(groupInfo, keyPackage, basis, signaturePrivateKey, cs, ops, pathSecret).value.created.updatePath.leafNode.data.signaturePublicKey
      == keyPackage.leafNode.data.signaturePublicKey
  {
    var (joinerTree, newLeafNode) := JoinerTree(basis, keyPackage, ops);
    var newLeaf := NodeToLeafIndex(newLeafNode);
    assert LeafToNodeIndex(newLeaf) == newLeafNode;
    CreatedLeafKeepsSignatureKey(joinerTree, newLeaf, groupInfo.tbs.groupContext, signaturePrivateKey, cs, pathSecret);
  }

  /** The leaf of a path createUpdatePath makes keeps the signature key of the leaf it replaces. */
  lemma CreatedLeafKeepsSignatureKey(originalTree: RatchetTree, senderLeafIndex: LeafIndex, groupContext: GroupContext,
    signaturePrivateKey: seq<byte>, cs: CiphersuiteImpl, pathSecret: seq<byte>)
    requires senderLeafIndex < TreeLeafCount(originalTree)
    requires CreateUpdatePath(originalTree, senderLeafIndex, groupContext, signaturePrivateKey, cs, pathSecret).Ok?
    ensures var original := NodeAt(originalTree, LeafToNodeIndex(senderLeafIndex));
      var c := CreateUpdatePath(originalTree, senderLeafIndex, groupContext, signaturePrivateKey, cs, pathSecret).value;
      original.Some? && original.value.NodeLeaf?
      && c.updatePath.leafNode.data.signaturePublicKey == original.value.leaf.data.signaturePublicKey
  {
    CreateUpdatePathParts(originalTree, senderLeafIndex, groupContext, signaturePrivateKey, cs, pathSecret);
    CommitterTreeParts(originalTree, senderLeafIndex, groupContext.groupId, signaturePrivateKey, cs, pathSecret);
  }

  /** The external commit's content and signature: the proposals inline, the path, a new_member_commit sender, in the group info's context. */
  function ExternalCommitSigned(groupInfo: GroupInfo, proposals: seq<Proposal>, path: UpdatePath, authenticatedData: seq<byte>,
    signaturePrivateKey: seq<byte>, cs: CiphersuiteImpl): (FramedContent, seq<byte>)
  {
    CreateContentCommitSignature(groupInfo.tbs.groupContext, MlsPublicMessage, Commit(InlineAll(proposals), Some(path)), NewMemberCommit,
      authenticatedData, signaturePrivateKey, cs.signature)
  }

  /**
   * The joiner's epoch after its commit: the next group context, the key
   * schedule from the exported init secret with a zero PSK secret, no
   * proposals pending, an active group, and the commit as a public message
   * with a new_member_commit sender.
   */
  function ExternalJoinEpoch<N>(groupInfo: GroupInfo, proposals: seq<Proposal>, p: JoinerPath, initSecret: seq<byte>,
    authenticatedData: seq<byte>, signaturePrivateKey: seq<byte>, padding: nat, cs: CiphersuiteImpl, ops: ExternalJoinOps<N>)
    : (r: Result<ExternalJoinResult<N>>)
    ensures r.Ok? <==> TreeHashRoot(p.created.tree, cs.hash).Ok?
    ensures r.Ok? ==>
      var msg := r.value.publicMessage;
      (msg.content, msg.auth.signature)
        == ExternalCommitSigned(groupInfo, proposals, p.created.updatePath, authenticatedData, signaturePrivateKey, cs)
      && msg.auth.AuthCommit? && msg.info == OtherSender(NewMemberCommitType)
    ensures r.Ok? ==>
      var st := r.value.newState;
      st.ratchetTree == p.created.tree && st.unappliedProposals == [] && st.groupActiveState == Active && st.Valid()
      && st.signaturePrivateKey == signaturePrivateKey && st.confirmationTag == r.value.publicMessage.auth.confirmationTag
      && st.privatePath == ops.joinerPrivateKeys(p.created.pathSecrets, p.newLeaf, p.created.leafPrivateKey) && st.padding == padding
  {
    var c := p.created;
    var commitSecret := CommitSecret(cs.kdf, c.pathSecrets);
    var pskSecret := Zeros(cs.kdf.size as nat);
    var (content, signature) := ExternalCommitSigned(groupInfo, proposals, c.updatePath, authenticatedData, signaturePrivateKey, cs);
    var treeHash := TreeHashRoot(c.tree, cs.hash);
    if treeHash.Err? then Err(treeHash.error)
    else
      var groupContext := ops.nextEpochContext(groupInfo.tbs.groupContext, MlsPublicMessage, content, signature, treeHash.value,
        groupInfo.tbs.confirmationTag);
      var epochSecrets := ops.initializeEpoch(initSecret, commitSecret, groupContext, pskSecret);
      var confirmationTag := CreateConfirmationTag(cs.hash, epochSecrets.confirmationKey, groupContext.confirmedTranscriptHash);
      var state := ClientState(
        groupContext,
        c.tree,
        ops.createSecretTree(LeafWidth(|c.tree|), epochSecrets.encryptionSecret),
        epochSecrets.keySchedule,
        ops.joinerPrivateKeys(c.pathSecrets, p.newLeaf, c.leafPrivateKey),
        [],
        confirmationTag,
        signaturePrivateKey,
        Active,
        padding);
      Ok(ExternalJoinResult(NewMemberCommitMessage(epochSecrets.keySchedule.membershipKey, groupContext, content, signature, confirmationTag, cs),
        state))
  }

  /** The joiner's signed commit as a public message: no membership tag, a new_member_commit sender. */
  function NewMemberCommitMessage(membershipKey: seq<byte>, groupContext: GroupContext, content: FramedContent, signature: seq<byte>,
    confirmationTag: seq<byte>, cs: CiphersuiteImpl): (msg: PublicMessage)
    requires content.info.CommitData? && content.sender == NewMemberCommit
    ensures msg.content == content && msg.auth == AuthCommit(signature, confirmationTag) && msg.info == OtherSender(NewMemberCommitType)
  {
    ProtectPublicMessage(membershipKey, groupContext, AuthenticatedContent(MlsPublicMessage, content, AuthCommit(signature, confirmationTag)), cs).value
  }

  /**
   * joinGroupExternal: after the checks, the joiner exports the init secret
   * and its KEM output from the group's external key, adds its leaf (in
   * place of its former one on a resync), makes an update path from it,
   * and commits the external init (after the removal) with that path as a
   * new member.
   */
  function JoinGroupExternal<N>(groupInfo: GroupInfo, keyPackage: KeyPackage, privateKeys: PrivateKeyPackage, resync: bool, cs: CiphersuiteImpl,
    tree: Option<RatchetTree>, padding: nat, authenticatedData: seq<byte>, ops: ExternalJoinOps<N>, pathSecret: seq<byte>)
    : (r: Result<ExternalJoinResult<N>>)
    ensures var basis := ExternalJoinChecks(groupInfo, keyPackage, resync, tree, cs, ops);
      (basis.Err? ==> r == Err(basis.error)) && (r.Ok? ==> basis.Ok?)
    ensures r.Ok? ==>
      var basis := ExternalJoinChecks(groupInfo, keyPackage, resync, tree, cs, ops).value;
      var p := JoinerPathOf(groupInfo, keyPackage, basis, privateKeys.signaturePrivateKey, cs, ops, pathSecret);
      var (kemOutput, initSecret) := ops.exportSecret(basis.externalPub);
      p.Ok?
      && r == ExternalJoinEpoch(groupInfo, ExternalCommitProposals(basis.formerLeafIndex, kemOutput), p.value, initSecret,
        authenticatedData, privateKeys.signaturePrivateKey, padding, cs, ops)
  {
    var checked := ExternalJoinChecks(groupInfo, keyPackage, resync, tree, cs, ops);
    if checked.Err? then Err(checked.error)
    else
      var basis := checked.value;
      var (kemOutput, initSecret) := ops.exportSecret(basis.externalPub);
      var p := JoinerPathOf(groupInfo, keyPackage, basis, privateKeys.signaturePrivateKey, cs, ops, pathSecret);
      if p.Err? then Err(p.error)
      else ExternalJoinEpoch(groupInfo, ExternalCommitProposals(basis.formerLeafIndex, kemOutput), p.value, initSecret,
        authenticatedData, privateKeys.signaturePrivateKey, padding, cs, ops)
  }

  /** A new-member commit signed with the key its path's leaf carries passes the checks of any member, whatever its tree and membership key. */
  lemma ExternalEpochCommitAccepted<N>(groupInfo: GroupInfo, proposals: seq<Proposal>, p: JoinerPath, initSecret: seq<byte>,
    authenticatedData: seq<byte>, signaturePrivateKey: seq<byte>, padding: nat, cs: CiphersuiteImpl, ops: ExternalJoinOps<N>,
    membershipKey: seq<byte>, receiverTree: RatchetTree)
    requires SignatureConsistent(cs.signature, p.created.updatePath.leafNode.data.signaturePublicKey, signaturePrivateKey)
    requires ExternalJoinEpoch(groupInfo, proposals, p, initSecret, authenticatedData, signaturePrivateKey, padding, cs, ops).Ok?
    ensures var msg := ExternalJoinEpoch(groupInfo, proposals, p, initSecret, authenticatedData, signaturePrivateKey, padding, cs, ops)
        .value.publicMessage;
      UnprotectPublicMessage(membershipKey, groupInfo.tbs.groupContext, receiverTree, msg, cs, None).Ok?
  {
    var msg := ExternalJoinEpoch(groupInfo, proposals, p, initSecret, authenticatedData, signaturePrivateKey, padding, cs, ops).value.publicMessage;
    NewMemberCommitUnprotects(groupInfo, proposals, p.created.updatePath, authenticatedData, signaturePrivateKey, cs, msg, membershipKey, receiverTree);
  }

  /** A new_member_commit message carrying the joiner's signed commit passes a member's checks. */
  lemma NewMemberCommitUnprotects(groupInfo: GroupInfo, proposals: seq<Proposal>, path: UpdatePath, authenticatedData: seq<byte>,
    signaturePrivateKey: seq<byte>, cs: CiphersuiteImpl, msg: PublicMessage, membershipKey: seq<byte>, receiverTree: RatchetTree)
    requires SignatureConsistent(cs.signature, path.leafNode.data.signaturePublicKey, signaturePrivateKey)
    requires (msg.content, msg.auth.signature) == ExternalCommitSigned(groupInfo, proposals, path, authenticatedData, signaturePrivateKey, cs)
    requires msg.auth.AuthCommit? && msg.info == OtherSender(NewMemberCommitType)
    ensures UnprotectPublicMessage(membershipKey, groupInfo.tbs.groupContext, receiverTree, msg, cs, None).Ok?
  {
    NewMemberCommitVerifies(groupInfo, proposals, path, authenticatedData, signaturePrivateKey, cs, msg, receiverTree);
  }

  /** The signature of an external commit verifies under the key of the leaf its path carries. */
  lemma NewMemberCommitVerifies(groupInfo: GroupInfo, proposals: seq<Proposal>, path: UpdatePath, authenticatedData: seq<byte>,
    signaturePrivateKey: seq<byte>, cs: CiphersuiteImpl, msg: PublicMessage, receiverTree: RatchetTree)
    requires SignatureConsistent(cs.signature, path.leafNode.data.signaturePublicKey, signaturePrivateKey)
    requires (msg.content, msg.auth.signature) == ExternalCommitSigned(groupInfo, proposals, path, authenticatedData, signaturePrivateKey, cs)
    requires msg.auth.AuthCommit?
    ensures ContentTypeOf(msg.content) == ContentType.CommitContent
    ensures PublicSignatureKey(None, receiverTree, groupInfo.tbs.groupContext, msg.content) == Ok(path.leafNode.data.signaturePublicKey)
    ensures VerifyFramedContentSignature(cs.signature, path.leafNode.data.signaturePublicKey, MlsPublicMessage, msg.content, msg.auth,
      groupInfo.tbs.groupContext)
  {
    var gc := groupInfo.tbs.groupContext;
    var c := Commit(InlineAll(proposals), Some(path));
    var key := path.leafNode.data.signaturePublicKey;
    assert msg.content.sender == NewMemberCommit && msg.content.info == CommitData(c);
    CommitSignatureVerifies(gc, MlsPublicMessage, c, NewMemberCommit, authenticatedData, cs.signature, key, signaturePrivateKey,
      msg.auth.confirmationTag);
    assert msg.auth == AuthCommit(msg.auth.signature, msg.auth.confirmationTag);
  }

  /**
   * An external commit passes the checks of every member of the group the
   * group info describes, whatever its tree and membership key, when the
   * joiner signs with the key of its key package's leaf and addLeafNode
   * puts that leaf at the leaf slot it reports.
   */
  lemma ExternalCommitAccepted<N>(groupInfo: GroupInfo, keyPackage: KeyPackage, privateKeys: PrivateKeyPackage, resync: bool,
    cs: CiphersuiteImpl, tree: Option<RatchetTree>, padding: nat, authenticatedData: seq<byte>, ops: ExternalJoinOps<N>, pathSecret: seq<byte>,
    membershipKey: seq<byte>, receiverTree: RatchetTree)
    requires SignatureConsistent(cs.signature, keyPackage.leafNode.data.signaturePublicKey, privateKeys.signaturePrivateKey)
    requires forall t :: (ops.addLeafNode(t, keyPackage.leafNode).1 % 2 == 0
      && NodeAt(ops.addLeafNode(t, keyPackage.leafNode).0, ops.addLeafNode(t, keyPackage.leafNode).1) == Some(NodeLeaf(keyPackage.leafNode)))
    requires JoinGroupExternal(groupInfo, keyPackage, privateKeys, resync, cs, tree, padding, authenticatedData, ops, pathSecret).Ok?
    ensures var msg := JoinGroupExternal(groupInfo, keyPackage, privateKeys, resync, cs, tree, padding, authenticatedData, ops, pathSecret)
        .value.publicMessage;
      UnprotectPublicMessage(membershipKey, groupInfo.tbs.groupContext, receiverTree, msg, cs, None).Ok?
  {
    var basis := ExternalJoinChecks(groupInfo, keyPackage, resync, tree, cs, ops).value;
    var p := JoinerPathOf(groupInfo, keyPackage, basis, privateKeys.signaturePrivateKey, cs, ops, pathSecret).value;
    var (kemOutput, initSecret) := ops.exportSecret(basis.externalPub);
    JoinerPathKeepsSignatureKey(groupInfo, keyPackage, basis, privateKeys.signaturePrivateKey, cs, ops, pathSecret);
    ExternalEpochCommitAccepted(groupInfo, ExternalCommitProposals(basis.formerLeafIndex, kemOutput), p, initSecret, authenticatedData,
      privateKeys.signaturePrivateKey, padding, cs, ops, membershipKey, receiverTree);
  }
}
