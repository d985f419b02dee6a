/**
 * The interface of the secret tree (section 9 of RFC 9420) as message
 * protection uses it. src/secretTree.ts is not part of this model: the
 * ratchets are supplied as function values, so everything proved about
 * message protection holds for any ratchet behaviour and retention policy.
 */
module SecretTree {
  import opened Wrappers
  import opened Bytes
  import opened ContentType
  import opened TreeMath
  import opened PrivateMessage

  /** The secret tree as an array of optional nodes of some node type `N`. */
  type SecretTree<N> = seq<Option<N>>

  /** The node at `x`; every index past the end of the array holds nothing. */
  function SecretNodeAt<N>(tree: SecretTree<N>, x: NodeIndex): Option<N> {
    if x < |tree| then tree[x] else None
  }

  /** What consuming the next generation of a sender's ratchet gives the sender. */
  datatype ConsumedRatchet<N> = ConsumedRatchet(
    newTree: SecretTree<N>,
    generation: uint32,
    reuseGuard: seq<byte>,
    nonce: seq<byte>,
    key: seq<byte>)

  /** What ratcheting to a sender's generation gives the receiver. */
  datatype GenerationSecrets<N> = GenerationSecrets(key: seq<byte>, nonce: seq<byte>, newTree: SecretTree<N>)

  /**
   * consumeRatchet and ratchetToGeneration, for a fixed ciphersuite and key
   * retention configuration; either may fail with one of the library's
   * errors.
   */
  datatype SecretTreeOps<!N> = SecretTreeOps(
    consumeRatchet: (SecretTree<N>, NodeIndex, ContentTypeName) -> Result<ConsumedRatchet<N>>,
    ratchetToGeneration: (SecretTree<N>, SenderData, ContentTypeName) -> Result<GenerationSecrets<N>>)

  /**
   * The sender's and the receiver's trees are in step for `leafIndex` and
   * content type `t`: when the sender consumes a generation, its reuse guard
   * is four bytes, and the receiver, ratcheting to that generation, derives
   * the same key and nonce.
   */
  predicate RatchetsAgree<N>(ops: SecretTreeOps<N>, senderTree: SecretTree<N>, receiverTree: SecretTree<N>,
    leafIndex: uint32, t: ContentTypeName)
  {
    var c := ops.consumeRatchet(senderTree, LeafToNodeIndex(leafIndex as nat), t);
    c.Ok? ==>
      (|c.value.reuseGuard| == 4
       && var g := ops.ratchetToGeneration(receiverTree, SenderData(leafIndex, c.value.generation, c.value.reuseGuard), t);
       g.Ok? && g.value.key == c.value.key && g.value.nonce == c.value.nonce)
  }
}
