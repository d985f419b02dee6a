/**
 * The parts of a member's group state that message creation, commits and
 * resumption read and rebuild. src/clientState.ts is not part of this
 * model: the state holds only the fields those operations use, the key
 * schedule only the secrets they read, and the secret tree is of an
 * arbitrary node type `N` (see module SecretTree).
 */
module ClientState {
  import opened Wrappers
  import opened Bytes
  import opened TreeMath
  import opened RatchetTree
  import opened GroupContext
  import opened Proposal
  import opened SecretTree
  import opened UnappliedProposals

  /** The epoch secrets of the key schedule that the modelled operations read. */
  datatype KeySchedule = KeySchedule(
    senderDataSecret: seq<byte>,
    membershipKey: seq<byte>,
    resumptionPsk: seq<byte>,
    initSecret: seq<byte>,
    externalSecret: seq<byte>)

  /** A member's own leaf and the private keys it holds for nodes of the tree. */
  datatype PrivateKeyPath = PrivateKeyPath(leafIndex: uint32, privateKeys: map<NodeIndex, seq<byte>>)

  /** Whether the group may be used: active, waiting for a reinit to be carried out, or left. */
  datatype GroupActiveState = Active | SuspendedPendingReinit(reinit: Reinit) | RemovedFromGroup

  datatype ClientState<N> = ClientState(
    groupContext: GroupContext,
    ratchetTree: RatchetTree,
    secretTree: SecretTree<N>,
    keySchedule: KeySchedule,
    privatePath: PrivateKeyPath,
    unappliedProposals: UnappliedProposals,
    confirmationTag: seq<byte>,
    signaturePrivateKey: seq<byte>,
    groupActiveState: GroupActiveState,
    padding: nat)
  {
    /** The unapplied-proposal table never holds a reference twice. */
    predicate Valid() {
      DistinctRefs(unappliedProposals)
    }
  }

  /**
   * checkCanSendApplicationMessages: a member may not send application
   * data while proposals of the epoch are still uncommitted, nor from a
   * group that is not active.
   */
  function CheckCanSendApplicationMessages<N>(state: ClientState<N>): (r: Option<MlsError>)
    ensures r.None? <==> state.unappliedProposals == [] && state.groupActiveState.Active?
    ensures r.Some? ==> r.value == UsageError
  {
    if state.unappliedProposals != [] then Some(UsageError)
    else if !state.groupActiveState.Active? then Some(UsageError)
    else None
  }

  /** checkCanSendHandshakeMessages: proposals and commits need an active group. */
  function CheckCanSendHandshakeMessages<N>(state: ClientState<N>): (r: Option<MlsError>)
    ensures r.None? <==> state.groupActiveState.Active?
    ensures r.Some? ==> r.value == UsageError
  {
    if state.groupActiveState.Active? then None else Some(UsageError)
  }
}
