/**
 * Reinitialisation and branching of groups, src/resumption.ts: a reinit
 * commit, resumption PSKs that name the epoch they come from, the first
 * commit of a reinitialised or branched group, and joining such a group.
 * createGroup and joinGroup of src/clientState.ts are not part of this
 * model and are parameters; so is getCiphersuiteImpl, which maps a cipher
 * suite name to its implementation. makePskIndex over the old state is
 * part of what the commit operations and joinGroup are given.
 */
module Resumption {
  import opened Wrappers
  import opened Bytes
  import opened TlsDecoder
  import opened Crypto
  import opened Ciphersuite
  import opened Extension
  import opened GroupContext
  import opened KeyPackage
  import opened PreSharedKey
  import opened Proposal
  import opened ProposalOrRef
  import opened ProtocolVersion
  import opened RatchetTree
  import opened Welcome
  import opened SecretTree
  import opened UnappliedProposals
  import opened ClientState
  import opened CreateCommit

  /** createCommit's options when the caller gives only extra proposals. */
  function DefaultCommitOptions(extraProposals: seq<Proposal>): (r: CommitOptions)
    ensures r.extraProposals == extraProposals && !r.wireAsPublicMessage && !r.ratchetTreeExtension
    ensures r.groupInfoExtensions == [] && r.authenticatedData == []
  {
    CommitOptions(false, extraProposals, false, [], [])
  }

  /**
   * reinitGroup: a commit of the pending proposals by reference and then
   * one inline reinit proposal with the given group id, version, cipher
   * suite and extensions. When that commit is applied as a reinit, the
   * group is suspended until the reinit is carried out.
   */
  function ReinitGroup<N>(state: ClientState<N>, groupId: seq<byte>, version: ProtocolVersionName, cipherSuite: CiphersuiteName,
    extensions: seq<Extension>, cs: CiphersuiteImpl, ops: CommitOps<N>, treeOps: SecretTreeOps<N>, freshPathSecret: seq<byte>)
    : (r: Result<CreateCommitResult<N>>)
    ensures !state.groupActiveState.Active? ==> r == Err(UsageError)
    ensures r.Ok? ==>
      var plan := PlanCommit(state, [ProposalReinit(Reinit(groupId, version, cipherSuite, extensions))], ops.applyProposals, cs, freshPathSecret);
      plan.Ok? && |plan.value.proposals| == |state.unappliedProposals| + 1
      && (forall i :: 0 <= i < |state.unappliedProposals| ==> plan.value.proposals[i].Reference?)
      && plan.value.proposals[|state.unappliedProposals|] == Inline(ProposalReinit(Reinit(groupId, version, cipherSuite, extensions)))
      && r.value.newState.groupActiveState == NextActiveState(plan.value.applied)
  {
    CreateCommit.CreateCommit(state, DefaultCommitOptions([ProposalReinit(Reinit(groupId, version, cipherSuite, extensions))]), cs, ops, treeOps,
      freshPathSecret)
  }

  /** A resumption PSK: its identifier and its secret. */
  datatype PskWithSecret = PskWithSecret(id: PreSharedKeyId, secret: seq<byte>)

  /**
   * makeResumptionPsk: a PSK of resumption type for the state's group id
   * and epoch and the given usage, with a nonce of the KDF's output length
   * (drawn at random in the source, a parameter here); its secret is the
   * epoch's resumption secret.
   */
  function MakeResumptionPsk<N>(state: ClientState<N>, usage: ResumptionPskUsageName, cs: CiphersuiteImpl, pskNonce: seq<byte>)
    : (r: PskWithSecret)
    requires |pskNonce| == cs.kdf.size as nat
    ensures r.id.info == PskInfoResumption(usage, state.groupContext.groupId, state.groupContext.epoch)
    ensures |r.id.pskNonce| == cs.kdf.size as nat && r.id.pskNonce == pskNonce
    ensures r.secret == state.keySchedule.resumptionPsk
  {
    PskWithSecret(PreSharedKeyId(PskInfoResumption(usage, state.groupContext.groupId, state.groupContext.epoch), pskNonce),
      state.keySchedule.resumptionPsk)
  }

  /** The identifier of a resumption PSK decodes from its encoding back to the group, epoch and usage it names. */
  lemma ResumptionPskIdRoundTrip<N>(state: ClientState<N>, usage: ResumptionPskUsageName, cs: CiphersuiteImpl, pskNonce: seq<byte>)
    requires |pskNonce| == cs.kdf.size as nat
    ensures var id := MakeResumptionPsk(state, usage, cs, pskNonce).id;
      Decodes(DecodePskId, EncodePskId(id), id) && PskInfoType(id.info) == ResumptionPsk
  {
    PskIdRoundTrip(MakeResumptionPsk(state, usage, cs, pskNonce).id);
  }

  /**
   * Resumption PSKs of different groups, epochs or usages are told apart
   * on the wire: their encoded identifiers differ, whatever the nonces.
   */
  lemma ResumptionPskNamesItsEpoch<N>(a: ClientState<N>, b: ClientState<N>, usageA: ResumptionPskUsageName, usageB: ResumptionPskUsageName,
    cs: CiphersuiteImpl, nonceA: seq<byte>, nonceB: seq<byte>)
    requires |nonceA| == cs.kdf.size as nat && |nonceB| == cs.kdf.size as nat
    requires a.groupContext.groupId != b.groupContext.groupId || a.groupContext.epoch != b.groupContext.epoch || usageA != usageB
    ensures EncodePskId(MakeResumptionPsk(a, usageA, cs, nonceA).id) != EncodePskId(MakeResumptionPsk(b, usageB, cs, nonceB).id)
  {
    var idA := MakeResumptionPsk(a, usageA, cs, nonceA).id;
    var idB := MakeResumptionPsk(b, usageB, cs, nonceB).id;
    PskIdRoundTrip(idA);
    PskIdRoundTrip(idB);
    if EncodePskId(idA) == EncodePskId(idB) {
      DecodesUnique(DecodePskId, EncodePskId(idA), idA, idB);
    }
  }

  /** An add proposal for each key package, in order, then the PSK proposal. */
  function ResumptionProposals(memberKeyPackages: seq<KeyPackage>, pskId: PreSharedKeyId): (r: seq<Proposal>)
    ensures |r| == |memberKeyPackages| + 1
    ensures forall i :: 0 <= i < |memberKeyPackages| ==> r[i] == ProposalAdd(memberKeyPackages[i])
    ensures r[|memberKeyPackages|] == ProposalPsk(pskId)
  {
    seq(|memberKeyPackages|, i requires 0 <= i < |memberKeyPackages| => ProposalAdd(memberKeyPackages[i])) + [ProposalPsk(pskId)]
  }

  /**
   * The proposals a new group's first commit carries after its own pending
   * ones: an add for each key package in order, then a resumption PSK of
   * the given usage from the old group's epoch.
   */
  predicate CommitsResumption(proposals: seq<ProposalOrRef>, pending: nat, memberKeyPackages: seq<KeyPackage>,
    usage: ResumptionPskUsageName, oldContext: GroupContext)
  {
    |proposals| == pending + |memberKeyPackages| + 1
    && (forall i :: 0 <= i < |memberKeyPackages| ==> proposals[pending + i] == Inline(ProposalAdd(memberKeyPackages[i])))
    && proposals[pending + |memberKeyPackages|].Inline? && proposals[pending + |memberKeyPackages|].proposal.ProposalPsk?
    && proposals[pending + |memberKeyPackages|].proposal.preSharedKeyId.info
      == PskInfoResumption(usage, oldContext.groupId, oldContext.epoch)
  }

  /** How a group is created: group id, the creator's key package and private keys, the group's extensions, the cipher suite. */
  type CreateGroup<!N> = (seq<byte>, KeyPackage, PrivateKeyPackage, seq<Extension>, CiphersuiteImpl) -> Result<ClientState<N>>

  /** The first commit of a freshly created group: the adds and a resumption PSK of `usage` from the old state. */
  function ResumptionCommit<N>(oldState: ClientState<N>, newGroup: ClientState<N>, memberKeyPackages: seq<KeyPackage>,
    usage: ResumptionPskUsageName, cs: CiphersuiteImpl, ops: CommitOps<N>, treeOps: SecretTreeOps<N>, freshPathSecret: seq<byte>,
    pskNonce: seq<byte>): (r: Result<CreateCommitResult<N>>)
    requires |pskNonce| == cs.kdf.size as nat
    ensures !newGroup.groupActiveState.Active? ==> r == Err(UsageError)
    ensures r.Ok? ==>
      var extra := ResumptionProposals(memberKeyPackages, MakeResumptionPsk(oldState, usage, cs, pskNonce).id);
      var plan := PlanCommit(newGroup, extra, ops.applyProposals, cs, freshPathSecret);
      plan.Ok? && CommitsResumption(plan.value.proposals, |newGroup.unappliedProposals|, memberKeyPackages, usage, oldState.groupContext)
  {
    var psk := MakeResumptionPsk(oldState, usage, cs, pskNonce);
    var extra := ResumptionProposals(memberKeyPackages, psk.id);
    var r := CreateCommit.CreateCommit(newGroup, DefaultCommitOptions(extra), cs, ops, treeOps, freshPathSecret);
    assert r.Ok? ==> PlanCommit(newGroup, extra, ops.applyProposals, cs, freshPathSecret).Ok?;
    BundledResumption(newGroup.unappliedProposals, memberKeyPackages, psk.id, usage, oldState.groupContext);
    r
  }

  /** Bundled after the pending references, the adds and the PSK proposal keep their order. */
  lemma BundledResumption(unapplied: UnappliedProposals, memberKeyPackages: seq<KeyPackage>, pskId: PreSharedKeyId,
    usage: ResumptionPskUsageName, oldContext: GroupContext)
    requires pskId.info == PskInfoResumption(usage, oldContext.groupId, oldContext.epoch)
    ensures CommitsResumption(BundleAllProposals(unapplied, ResumptionProposals(memberKeyPackages, pskId)), |unapplied|, memberKeyPackages,
      usage, oldContext)
  {
    var extra := ResumptionProposals(memberKeyPackages, pskId);
    var b := BundleAllProposals(unapplied, extra);
    assert b[|unapplied| + |memberKeyPackages|] == Inline(extra[|memberKeyPackages|]);
  }

  /**
   * reinitCreateNewGroup: a new group with the given id, cipher suite and
   * extensions, whose first commit adds the members' key packages in order
   * and then a reinit-usage resumption PSK of the old group's epoch.
   */
  function ReinitCreateNewGroup<N>(state: ClientState<N>, keyPackage: KeyPackage, privateKeyPackage: PrivateKeyPackage,
    memberKeyPackages: seq<KeyPackage>, groupId: seq<byte>, cipherSuite: CiphersuiteName, extensions: seq<Extension>,
    suiteImpl: CiphersuiteName -> CiphersuiteImpl, createGroup: CreateGroup<N>, commitOps: ClientState<N> -> CommitOps<N>,
    treeOps: SecretTreeOps<N>, freshPathSecret: seq<byte>, pskNonce: seq<byte>): (r: Result<CreateCommitResult<N>>)
    requires |pskNonce| == suiteImpl(cipherSuite).kdf.size as nat
    ensures var newGroup := createGroup(groupId, keyPackage, privateKeyPackage, extensions, suiteImpl(cipherSuite));
      (newGroup.Err? ==> r == Err(newGroup.error))
      && (r.Ok? ==> (newGroup.Ok?
        && var plan := PlanCommit(newGroup.value, ResumptionProposals(memberKeyPackages, MakeResumptionPsk(state, UsageReinit, suiteImpl(cipherSuite),
          pskNonce).id), commitOps(newGroup.value).applyProposals, suiteImpl(cipherSuite), freshPathSecret);
        plan.Ok? && CommitsResumption(plan.value.proposals, |newGroup.value.unappliedProposals|, memberKeyPackages, UsageReinit, state.groupContext)))
  {
    var cs := suiteImpl(cipherSuite);
    var newGroup := createGroup(groupId, keyPackage, privateKeyPackage, extensions, cs);
    if newGroup.Err? then Err(newGroup.error)
    else ResumptionCommit(state, newGroup.value, memberKeyPackages, UsageReinit, cs, commitOps(newGroup.value), treeOps, freshPathSecret, pskNonce)
  }

  /**
   * branchGroup: a new group with the new id and the old group's
   * extensions, whose first commit adds the members' key packages in order
   * and then a branch-usage resumption PSK of the old group's epoch.
   */
  function BranchGroup<N>(state: ClientState<N>, keyPackage: KeyPackage, privateKeyPackage: PrivateKeyPackage,
    memberKeyPackages: seq<KeyPackage>, newGroupId: seq<byte>, cs: CiphersuiteImpl, createGroup: CreateGroup<N>,
    commitOps: ClientState<N> -> CommitOps<N>, treeOps: SecretTreeOps<N>, freshPathSecret: seq<byte>, pskNonce: seq<byte>)
    : (r: Result<CreateCommitResult<N>>)
    requires |pskNonce| == cs.kdf.size as nat
    ensures var newGroup := createGroup(newGroupId, keyPackage, privateKeyPackage, state.groupContext.extensions, cs);
      (newGroup.Err? ==> r == Err(newGroup.error))
      && (r.Ok? ==> (newGroup.Ok?
        && var plan := PlanCommit(newGroup.value, ResumptionProposals(memberKeyPackages, MakeResumptionPsk(state, UsageBranch, cs, pskNonce).id),
          commitOps(newGroup.value).applyProposals, cs, freshPathSecret);
        plan.Ok? && CommitsResumption(plan.value.proposals, |newGroup.value.unappliedProposals|, memberKeyPackages, UsageBranch, state.groupContext)))
  {
    var newGroup := createGroup(newGroupId, keyPackage, privateKeyPackage, state.groupContext.extensions, cs);
    if newGroup.Err? then Err(newGroup.error)
    else ResumptionCommit(state, newGroup.value, memberKeyPackages, UsageBranch, cs, commitOps(newGroup.value), treeOps, freshPathSecret, pskNonce)
  }

  /** How a Welcome is joined: the Welcome, the joiner's key package and private keys, the cipher suite, the tree if given, the state resumed from. */
  type JoinGroup<!N> = (Welcome, KeyPackage, PrivateKeyPackage, CiphersuiteImpl, Option<RatchetTree>, ClientState<N>) -> Result<ClientState<N>>

  /** joinGroupFromBranch: joining a branch, with the old state as the one resumed from, whatever that state's activity. */
  function JoinGroupFromBranch<N>(oldState: ClientState<N>, welcome: Welcome, keyPackage: KeyPackage, privateKeyPackage: PrivateKeyPackage,
    ratchetTree: Option<RatchetTree>, cs: CiphersuiteImpl, joinGroup: JoinGroup<N>): (r: Result<ClientState<N>>)
    ensures r == joinGroup(welcome, keyPackage, privateKeyPackage, cs, ratchetTree, oldState)
  {
    joinGroup(welcome, keyPackage, privateKeyPackage, cs, ratchetTree, oldState)
  }

  /**
   * joinGroupFromReinit: only a state suspended for a reinit can be
   * resumed, a UsageError otherwise; the join uses the cipher suite the
   * reinit names.
   */
  function JoinGroupFromReinit<N>(suspendedState: ClientState<N>, welcome: Welcome, keyPackage: KeyPackage, privateKeyPackage: PrivateKeyPackage,
    ratchetTree: Option<RatchetTree>, suiteImpl: CiphersuiteName -> CiphersuiteImpl, joinGroup: JoinGroup<N>): (r: Result<ClientState<N>>)
    ensures !suspendedState.groupActiveState.SuspendedPendingReinit? ==> r == Err(UsageError)
    ensures suspendedState.groupActiveState.SuspendedPendingReinit? ==>
      r == joinGroup(welcome, keyPackage, privateKeyPackage, suiteImpl(suspendedState.groupActiveState.reinit.cipherSuite), ratchetTree,
        suspendedState)
  {
    if !suspendedState.groupActiveState.SuspendedPendingReinit? then Err(UsageError)
    else
      var cs := suiteImpl(suspendedState.groupActiveState.reinit.cipherSuite);
      joinGroup(welcome, keyPackage, privateKeyPackage, cs, ratchetTree, suspendedState)
  }

  /**
   * After a reinit commit that applies as that reinit (and does not remove
   * the committer), the committer's new state is suspended for it, so
   * joining the reinitialised group is allowed and uses the cipher suite
   * the reinit proposal named.
   */
  lemma ReinitCommitAllowsReinitJoin<N>(state: ClientState<N>, groupId: seq<byte>, version: ProtocolVersionName, cipherSuite: CiphersuiteName,
    extensions: seq<Extension>, cs: CiphersuiteImpl, ops: CommitOps<N>, treeOps: SecretTreeOps<N>, freshPathSecret: seq<byte>,
    welcome: Welcome, keyPackage: KeyPackage, privateKeyPackage: PrivateKeyPackage, ratchetTree: Option<RatchetTree>,
    suiteImpl: CiphersuiteName -> CiphersuiteImpl, joinGroup: JoinGroup<N>)
    requires ReinitGroup(state, groupId, version, cipherSuite, extensions, cs, ops, treeOps, freshPathSecret).Ok?
    requires var applied := ops.applyProposals(BundleAllProposals(state.unappliedProposals,
        [ProposalReinit(Reinit(groupId, version, cipherSuite, extensions))]));
      applied.Ok? && !applied.value.selfRemoved && applied.value.additionalResult == ReinitResult(Reinit(groupId, version, cipherSuite, extensions))
    ensures var next := ReinitGroup(state, groupId, version, cipherSuite, extensions, cs, ops, treeOps, freshPathSecret).value.newState;
      next.groupActiveState == SuspendedPendingReinit(Reinit(groupId, version, cipherSuite, extensions))
      && JoinGroupFromReinit(next, welcome, keyPackage, privateKeyPackage, ratchetTree, suiteImpl, joinGroup)
        == joinGroup(welcome, keyPackage, privateKeyPackage, suiteImpl(cipherSuite), ratchetTree, next)
  {
    var reinit := ProposalReinit(Reinit(groupId, version, cipherSuite, extensions));
    var plan := PlanCommit(state, [reinit], ops.applyProposals, cs, freshPathSecret);
    assert plan.Ok?;
    assert plan.value.applied == ops.applyProposals(BundleAllProposals(state.unappliedProposals, [reinit])).value;
  }
}
