/**
 * The UpdatePath of a commit, src/updatePath.ts (section 7.6 of RFC 9420):
 * its codec, how a committer derives new keys and path secrets along its
 * filtered direct path and encrypts them to the copath resolutions, and
 * how a receiver checks and applies a received path.
 *
 * Randomness is a parameter: the fresh path secret the committer draws is
 * passed in. Key derivation, export and import are the `deriveKeyPair`
 * function of the cipher suite.
 */
module UpdatePath {
  import opened Wrappers
  import opened Bytes
  import opened TlsDecoder
  import opened Number
  import opened VariableLength
  import opened Crypto
  import opened HpkeCiphertext
  import opened LeafNodeSource
  import opened LeafNode
  import opened ParentNode
  import opened TreeMath
  import opened RatchetTree
  import opened TreeHash
  import opened ParentHash
  import opened PathSecrets
  import opened GroupContext

  // ---------------------------------------------------------------------
  // Codecs
  // ---------------------------------------------------------------------

  datatype UpdatePathNode = UpdatePathNode(hpkePublicKey: seq<byte>, encryptedPathSecret: seq<HpkeCiphertext>)

  function EncodeUpdatePathNode(n: UpdatePathNode): seq<byte> {
    EncodeVarLenData(n.hpkePublicKey) + EncodeVarLenType(EncodeHpkeCiphertext, n.encryptedPathSecret)
  }

  const DecodeUpdatePathNode: Decoder<UpdatePathNode> :=
    MapDecoders2(DecodeVarLenData, DecodeVarLenType(DecodeHpkeCiphertext),
      (k: seq<byte>, cs: seq<HpkeCiphertext>) => UpdatePathNode(k, cs))

  lemma UpdatePathNodeRoundTrip(n: UpdatePathNode)
    ensures |EncodeUpdatePathNode(n)| > 0
    ensures Decodes(DecodeUpdatePathNode, EncodeUpdatePathNode(n), n)
  {
    VarLenDataRoundTrip(n.hpkePublicKey);
    HpkeCiphertextsRoundTrip(n.encryptedPathSecret);
    MapDecoders2Decodes(DecodeVarLenData, DecodeVarLenType(DecodeHpkeCiphertext),
      (k: seq<byte>, cs: seq<HpkeCiphertext>) => UpdatePathNode(k, cs),
      EncodeVarLenData(n.hpkePublicKey), EncodeVarLenType(EncodeHpkeCiphertext, n.encryptedPathSecret),
      n.hpkePublicKey, n.encryptedPathSecret);
  }

  lemma UpdatePathNodesRoundTrip(ns: seq<UpdatePathNode>)
    ensures Decodes(DecodeVarLenType(DecodeUpdatePathNode), EncodeVarLenType(EncodeUpdatePathNode, ns), ns)
  {
    forall k | 0 <= k < |ns|
      ensures |EncodeUpdatePathNode(ns[k])| > 0 && Decodes(DecodeUpdatePathNode, EncodeUpdatePathNode(ns[k]), ns[k])
    {
      UpdatePathNodeRoundTrip(ns[k]);
    }
    VarLenTypeRoundTrip(DecodeUpdatePathNode, EncodeUpdatePathNode, ns);
  }

  /** The new leaf of the committer (of source commit) and one node per step of its filtered direct path. */
  datatype UpdatePath = UpdatePath(leafNode: LeafNode, nodes: seq<UpdatePathNode>)

  function EncodeUpdatePath(p: UpdatePath): seq<byte> {
    EncodeLeafNode(p.leafNode) + EncodeVarLenType(EncodeUpdatePathNode, p.nodes)
  }

  /** The leaf is read with the decoder that accepts only a leaf of source commit. */
  const DecodeUpdatePath: Decoder<UpdatePath> :=
    MapDecoders2(DecodeLeafNodeCommit, DecodeVarLenType(DecodeUpdatePathNode),
      (l: LeafNode, ns: seq<UpdatePathNode>) => UpdatePath(l, ns))

  /** A path whose leaf is a canonical commit leaf reads back unchanged. */
  lemma UpdatePathRoundTrip(p: UpdatePath)
    requires CanonicalLeafNode(p.leafNode) && InfoSource(p.leafNode.info) == CommitSource
    ensures Decodes(DecodeUpdatePath, EncodeUpdatePath(p), p)
  {
    SourceFilteredRoundTrip(CommitSource, p.leafNode);
    UpdatePathNodesRoundTrip(p.nodes);
    MapDecoders2Decodes(DecodeLeafNodeCommit, DecodeVarLenType(DecodeUpdatePathNode),
      (l: LeafNode, ns: seq<UpdatePathNode>) => UpdatePath(l, ns),
      EncodeLeafNode(p.leafNode), EncodeVarLenType(EncodeUpdatePathNode, p.nodes), p.leafNode, p.nodes);
  }

  /** A path whose leaf is not of source commit is rejected, whatever follows it. */
  lemma UpdatePathRejectsOtherLeaf(l: LeafNode, rest: seq<byte>)
    requires CanonicalLeafNode(l) && InfoSource(l.info) != CommitSource
    ensures Rejects(DecodeUpdatePath, EncodeLeafNode(l) + rest)
  {
    SourceFilteredRoundTrip(CommitSource, l);
    RejectsExtended(DecodeLeafNodeCommit, EncodeLeafNode(l), rest);
    MapDecoders2RejectsFirst(DecodeLeafNodeCommit, DecodeVarLenType(DecodeUpdatePathNode),
      (l: LeafNode, ns: seq<UpdatePathNode>) => UpdatePath(l, ns), EncodeLeafNode(l) + rest);
  }

  // ---------------------------------------------------------------------
  // applyInitialTreeUpdate
  // ---------------------------------------------------------------------

  /** The public key of the node whose path secret is `secret`: deriveKeyPair(deriveSecret(secret, "node")). */
  function NodePublicKey(cs: CiphersuiteImpl, secret: seq<byte>): seq<byte> {
    cs.hpke.deriveKeyPair(DeriveSecret(cs.kdf, secret, "node")).publicKey
  }

  /**
   * The two derivations the path walk uses: the next path secret up the
   * tree, and the public key of a node from its path secret. PathKeysOf(cs)
   * are the cipher suite's; the walk is stated for any pair.
   */
  datatype PathKeys = PathKeys(next: seq<byte> -> seq<byte>, nodeKey: seq<byte> -> seq<byte>)

  function PathKeysOf(cs: CiphersuiteImpl): PathKeys {
    PathKeys(s => NextPathSecret(cs.kdf, s), s => NodePublicKey(cs, s))
  }

  /** The parent node the committer writes for a path secret: its key, no parent hash yet, no unmerged leaves. */
  function FreshParent(keys: PathKeys, secret: seq<byte>): Node {
    NodeParent(ParentNode(keys.nodeKey(secret), [], []))
  }

  /**
   * The fold of applyInitialTreeUpdate after its first `k` steps: the path
   * secrets so far, the latest in front, and the tree. It starts from the
   * leaf's own path secret; each step derives the next secret from the
   * front entry, puts the new entry in front and writes the fresh parent
   * node into the tree.
   */
  function InitialTreeFold(fdp: seq<PathStep>, k: nat, pathSecret: seq<byte>, senderLeafIndex: LeafIndex,
    tree: RatchetTree, keys: PathKeys): (r: (seq<PathSecret>, RatchetTree))
    requires k <= |fdp|
    ensures |r.0| == k + 1
  {
    if k == 0 then ([PathSecret(LeafToNodeIndex(senderLeafIndex), pathSecret, [])], tree)
    else
      var acc := InitialTreeFold(fdp, k - 1, pathSecret, senderLeafIndex, tree, keys);
      var step := fdp[k - 1];
      var nextPathSecret := keys.next(acc.0[0].secret);
      ([PathSecret(step.nodeIndex, nextPathSecret, step.resolution)] + acc.0,
       UpdateArray(acc.1, step.nodeIndex, FreshParent(keys, nextPathSecret)))
  }

  /** applyInitialTreeUpdate: the whole fold. The secrets come back from the root down to the leaf. */
  function ApplyInitialTreeUpdate(fdp: seq<PathStep>, pathSecret: seq<byte>, senderLeafIndex: LeafIndex,
    tree: RatchetTree, keys: PathKeys): (r: (seq<PathSecret>, RatchetTree))
    ensures |r.0| == |fdp| + 1
  {
    InitialTreeFold(fdp, |fdp|, pathSecret, senderLeafIndex, tree, keys)
  }

  /**
   * The path secrets after `k` steps: the last is the leaf with the given
   * secret and nobody to send to; entry `j` before it belongs to step
   * `k - 1 - j`, is sent to that step's resolution, and holds the secret
   * derived from the entry after it.
   */
  lemma {:induction false} FoldPathSecrets(fdp: seq<PathStep>, k: nat, pathSecret: seq<byte>, senderLeafIndex: LeafIndex,
    tree: RatchetTree, keys: PathKeys)
    requires k <= |fdp|
    ensures var ps := InitialTreeFold(fdp, k, pathSecret, senderLeafIndex, tree, keys).0;
      ps[k] == PathSecret(LeafToNodeIndex(senderLeafIndex), pathSecret, [])
    ensures var ps := InitialTreeFold(fdp, k, pathSecret, senderLeafIndex, tree, keys).0;
      forall j :: 0 <= j < k ==>
        ps[j].nodeIndex == fdp[k - 1 - j].nodeIndex && ps[j].sendTo == fdp[k - 1 - j].resolution
        && ps[j].secret == keys.next(ps[j + 1].secret)
  {
    FoldLeafSecret(fdp, k, pathSecret, senderLeafIndex, tree, keys);
    var ps := InitialTreeFold(fdp, k, pathSecret, senderLeafIndex, tree, keys).0;
    forall j | 0 <= j < k
      ensures ps[j].nodeIndex == fdp[k - 1 - j].nodeIndex && ps[j].sendTo == fdp[k - 1 - j].resolution
        && ps[j].secret == keys.next(ps[j + 1].secret)
    {
      FoldStepSecret(fdp, k, pathSecret, senderLeafIndex, tree, keys, j);
    }
  }

  /** The last path secret after `k` steps is the leaf's own. */
  lemma {:induction false} FoldLeafSecret(fdp: seq<PathStep>, k: nat, pathSecret: seq<byte>, senderLeafIndex: LeafIndex,
    tree: RatchetTree, keys: PathKeys)
    requires k <= |fdp|
    ensures InitialTreeFold(fdp, k, pathSecret, senderLeafIndex, tree, keys).0[k] == PathSecret(LeafToNodeIndex(senderLeafIndex), pathSecret, [])
  {
    if k > 0 {
      FoldLeafSecret(fdp, k - 1, pathSecret, senderLeafIndex, tree, keys);
    }
  }

  /** Entry `j` of the path secrets after `k` steps belongs to step `k - 1 - j` and derives from entry `j + 1`. */
  lemma {:induction false} FoldStepSecret(fdp: seq<PathStep>, k: nat, pathSecret: seq<byte>, senderLeafIndex: LeafIndex,
    tree: RatchetTree, keys: PathKeys, j: nat)
    requires j < k <= |fdp|
    ensures var ps := InitialTreeFold(fdp, k, pathSecret, senderLeafIndex, tree, keys).0;
      ps[j].nodeIndex == fdp[k - 1 - j].nodeIndex && ps[j].sendTo == fdp[k - 1 - j].resolution
      && ps[j].secret == keys.next(ps[j + 1].secret)
  {
    if j > 0 {
      FoldStepSecret(fdp, k - 1, pathSecret, senderLeafIndex, tree, keys, j - 1);
      assert k - 1 - 1 - (j - 1) == k - 1 - j;
    }
  }

  /**
   * applyInitialTreeUpdate returns one path secret per step and the leaf's:
   * the last is the leaf with the given secret and nobody to send to; entry
   * `j` before it belongs to step `|fdp| - 1 - j`, is sent to that step's
   * resolution, and holds the secret derived from the entry after it.
   */
  lemma InitialPathSecrets(fdp: seq<PathStep>, pathSecret: seq<byte>, senderLeafIndex: LeafIndex,
    tree: RatchetTree, keys: PathKeys)
    ensures var ps := ApplyInitialTreeUpdate(fdp, pathSecret, senderLeafIndex, tree, keys).0;
      ps[|fdp|] == PathSecret(LeafToNodeIndex(senderLeafIndex), pathSecret, [])
    ensures var ps := ApplyInitialTreeUpdate(fdp, pathSecret, senderLeafIndex, tree, keys).0;
      forall j :: 0 <= j < |fdp| ==>
        ps[j].nodeIndex == fdp[|fdp| - 1 - j].nodeIndex && ps[j].sendTo == fdp[|fdp| - 1 - j].resolution
        && ps[j].secret == keys.next(ps[j + 1].secret)
  {
    FoldPathSecrets(fdp, |fdp|, pathSecret, senderLeafIndex, tree, keys);
  }

  /** The indices of the steps are pairwise distinct. */
  predicate DistinctSteps(fdp: seq<PathStep>) {
    forall i, j :: 0 <= i < j < |fdp| ==> fdp[i].nodeIndex != fdp[j].nodeIndex
  }

  /** The steps all lie under the root of `tree`. */
  predicate StepsInTree(tree: RatchetTree, fdp: seq<PathStep>) {
    forall i :: 0 <= i < |fdp| ==> InTree(tree, fdp[i].nodeIndex)
  }

  /** The first `k` steps of the fold keep the root where it was. */
  lemma {:induction false} FoldRoot(fdp: seq<PathStep>, k: nat, pathSecret: seq<byte>, senderLeafIndex: LeafIndex,
    tree: RatchetTree, keys: PathKeys)
    requires k <= |fdp| && StepsInTree(tree, fdp)
    ensures var t := InitialTreeFold(fdp, k, pathSecret, senderLeafIndex, tree, keys).1;
      TreeRoot(t) == TreeRoot(tree) && TreeRootLevel(t) == TreeRootLevel(tree)
  {
    if k > 0 {
      FoldRoot(fdp, k - 1, pathSecret, senderLeafIndex, tree, keys);
      var acc := InitialTreeFold(fdp, k - 1, pathSecret, senderLeafIndex, tree, keys);
      var x := fdp[k - 1].nodeIndex;
      var n := FreshParent(keys, keys.next(acc.0[0].secret));
      assert InitialTreeFold(fdp, k, pathSecret, senderLeafIndex, tree, keys).1 == UpdateArray(acc.1, x, n);
      assert InTree(acc.1, x) by {
        assert InTree(tree, x);
      }
      UpdateKeepsRoot(acc.1, x, n);
    }
  }

  /** The first `k` steps leave every slot not among their indices unchanged. */
  lemma {:induction false} FoldElsewhere(fdp: seq<PathStep>, k: nat, pathSecret: seq<byte>, senderLeafIndex: LeafIndex,
    tree: RatchetTree, keys: PathKeys, y: NodeIndex)
    requires k <= |fdp| && forall i :: 0 <= i < k ==> fdp[i].nodeIndex != y
    ensures NodeAt(InitialTreeFold(fdp, k, pathSecret, senderLeafIndex, tree, keys).1, y) == NodeAt(tree, y)
  {
    if k > 0 {
      FoldElsewhere(fdp, k - 1, pathSecret, senderLeafIndex, tree, keys, y);
    }
  }

  /** After `k` distinct steps, the slot of each holds the fresh parent for its secret. */
  lemma {:induction false} FoldSlots(fdp: seq<PathStep>, k: nat, pathSecret: seq<byte>, senderLeafIndex: LeafIndex,
    tree: RatchetTree, keys: PathKeys)
    requires k <= |fdp| && DistinctSteps(fdp)
    ensures var r := InitialTreeFold(fdp, k, pathSecret, senderLeafIndex, tree, keys);
      forall i :: 0 <= i < k ==> NodeAt(r.1, fdp[i].nodeIndex) == Some(FreshParent(keys, r.0[k - 1 - i].secret))
  {
    if k > 0 {
      FoldSlots(fdp, k - 1, pathSecret, senderLeafIndex, tree, keys);
      var acc := InitialTreeFold(fdp, k - 1, pathSecret, senderLeafIndex, tree, keys);
      var r := InitialTreeFold(fdp, k, pathSecret, senderLeafIndex, tree, keys);
      assert r.0 == [r.0[0]] + acc.0;
      forall i | 0 <= i < k - 1
        ensures NodeAt(r.1, fdp[i].nodeIndex) == Some(FreshParent(keys, r.0[k - 1 - i].secret))
      {
        assert fdp[i].nodeIndex != fdp[k - 1].nodeIndex;
        assert r.0[k - 1 - i] == acc.0[k - 2 - i];
      }
    }
  }

  /**
   * applyInitialTreeUpdate writes the tree: each step's slot holds the fresh
   * parent for that step's path secret, every other slot keeps its node, and
   * the root stays where it was.
   */
  lemma InitialTreeUpdate(fdp: seq<PathStep>, pathSecret: seq<byte>, senderLeafIndex: LeafIndex,
    tree: RatchetTree, keys: PathKeys)
    requires DistinctSteps(fdp) && StepsInTree(tree, fdp)
    ensures var r := ApplyInitialTreeUpdate(fdp, pathSecret, senderLeafIndex, tree, keys);
      forall i :: 0 <= i < |fdp| ==> NodeAt(r.1, fdp[i].nodeIndex) == Some(FreshParent(keys, r.0[|fdp| - 1 - i].secret))
    ensures var r := ApplyInitialTreeUpdate(fdp, pathSecret, senderLeafIndex, tree, keys);
      forall y: NodeIndex :: (forall i :: 0 <= i < |fdp| ==> fdp[i].nodeIndex != y) ==> NodeAt(r.1, y) == NodeAt(tree, y)
    ensures var t := ApplyInitialTreeUpdate(fdp, pathSecret, senderLeafIndex, tree, keys).1;
      TreeRoot(t) == TreeRoot(tree) && TreeRootLevel(t) == TreeRootLevel(tree)
  {
    FoldSlots(fdp, |fdp|, pathSecret, senderLeafIndex, tree, keys);
    FoldRoot(fdp, |fdp|, pathSecret, senderLeafIndex, tree, keys);
    forall y: NodeIndex | forall i :: 0 <= i < |fdp| ==> fdp[i].nodeIndex != y
      ensures NodeAt(ApplyInitialTreeUpdate(fdp, pathSecret, senderLeafIndex, tree, keys).1, y) == NodeAt(tree, y)
    {
      FoldElsewhere(fdp, |fdp|, pathSecret, senderLeafIndex, tree, keys, y);
    }
  }

  // ---------------------------------------------------------------------
  // The root-first parent-hash pass (insertParentHashes and the loop of
  // applyUpdatePath)
  // ---------------------------------------------------------------------

  predicate NodesInTree(tree: RatchetTree, xs: seq<NodeIndex>) {
    forall i :: 0 <= i < |xs| ==> InTree(tree, xs[i])
  }

  /** Each node lies at a lower level than every later one, inside its subtree. */
  predicate Nested(xs: seq<NodeIndex>) {
    forall i, j :: 0 <= i < j < |xs| ==> Level(xs[i]) < Level(xs[j]) && InSubtree(xs[i], xs[j])
  }

  /** calculateParentHash as a total function of the tree and the node, giving the hash alone. */
  function ParentHashOf(h: Hash): (RatchetTree, NodeIndex) -> Result<seq<byte>> {
    (t: RatchetTree, x: NodeIndex) =>
      if !InTree(t, x) then Err(InternalError)
      else
        var r := CalculateParentHash(t, x, h);
        if r.Err? then Err(r.error) else Ok(r.value.0)
  }

  ghost predicate AgreeOutsideSubtree(t1: RatchetTree, t2: RatchetTree, x: NodeIndex) {
    forall z: NodeIndex :: !InSubtree(z, x) ==> NodeAt(t1, z) == NodeAt(t2, z)
  }

  /** The hash at `x` reads only the slots outside the subtree of `x`. */
  ghost predicate ReadsOutsideSubtree(hash: (RatchetTree, NodeIndex) -> Result<seq<byte>>) {
    forall t1: RatchetTree, t2: RatchetTree, x: NodeIndex ::
      InTree(t1, x) && TreeRootLevel(t1) == TreeRootLevel(t2) && AgreeOutsideSubtree(t1, t2, x) ==> hash(t1, x) == hash(t2, x)
  }

  lemma ParentHashOfLocal(h: Hash)
    ensures ReadsOutsideSubtree(ParentHashOf(h))
  {
    forall t1: RatchetTree, t2: RatchetTree, x: NodeIndex |
      InTree(t1, x) && TreeRootLevel(t1) == TreeRootLevel(t2) && AgreeOutsideSubtree(t1, t2, x)
      ensures ParentHashOf(h)(t1, x) == ParentHashOf(h)(t2, x)
    {
      CalculateParentHashLocal(t1, t2, x, h);
    }
  }

  /** Writing a slot inside the subtree of `x` keeps a hash that reads only outside it. */
  lemma UpdateInsideKeeps(hash: (RatchetTree, NodeIndex) -> Result<seq<byte>>, tree: RatchetTree, y: NodeIndex, n: Node, x: NodeIndex)
    requires ReadsOutsideSubtree(hash)
    requires InTree(tree, x) && InTree(tree, y) && InSubtree(y, x)
    ensures hash(UpdateArray(tree, y, n), x) == hash(tree, x)
  {
    UpdateKeepsRoot(tree, y, n);
    assert AgreeOutsideSubtree(tree, UpdateArray(tree, y, n), x);
  }

  /**
   * The pass over `xs` from the last node (the highest) down to position
   * `k`: at each node it computes calculateParentHash on the tree so far and
   * writes the parent node the template gives for that position and slot,
   * with that parent hash. A failing hash, or a template that gives
   * nothing, is an InternalError.
   */
  function HashFold(xs: seq<NodeIndex>, k: nat, tree: RatchetTree, hash: (RatchetTree, NodeIndex) -> Result<seq<byte>>,
    template: (nat, Option<Node>) -> Option<ParentNode>): (r: Result<RatchetTree>)
    requires k <= |xs| && NodesInTree(tree, xs)
    ensures r.Ok? ==> TreeRootLevel(r.value) == TreeRootLevel(tree)
    decreases |xs| - k
  {
    if k == |xs| then Ok(tree)
    else
      var acc := HashFold(xs, k + 1, tree, hash, template);
      if acc.Err? then acc
      else
        var x := xs[k];
        var parentHash := hash(acc.value, x);
        if parentHash.Err? then Err(parentHash.error)
        else match template(k, NodeAt(acc.value, x))
          case None => Err(InternalError)
          case Some(p) =>
            assert InTree(acc.value, x) by {
              assert InTree(tree, x);
            }
            UpdateKeepsRoot(acc.value, x, NodeParent(p.(parentHash := parentHash.value)));
            Ok(UpdateArray(acc.value, x, NodeParent(p.(parentHash := parentHash.value))))
  }

  /** Once the pass fails, it fails with the same error down to position 0. */
  lemma {:induction false} HashFoldErrSticks(xs: seq<NodeIndex>, j: nat, k: nat, tree: RatchetTree,
    hash: (RatchetTree, NodeIndex) -> Result<seq<byte>>, template: (nat, Option<Node>) -> Option<ParentNode>)
    requires j <= k <= |xs| && NodesInTree(tree, xs)
    requires HashFold(xs, k, tree, hash, template).Err?
    ensures HashFold(xs, j, tree, hash, template) == HashFold(xs, k, tree, hash, template)
    decreases k - j
  {
    if j < k {
      HashFoldErrSticks(xs, j + 1, k, tree, hash, template);
    }
  }

  /** The pass leaves every slot that is not among the nodes it has visited. */
  lemma {:induction false} HashFoldElsewhere(xs: seq<NodeIndex>, k: nat, tree: RatchetTree, hash: (RatchetTree, NodeIndex) -> Result<seq<byte>>,
    template: (nat, Option<Node>) -> Option<ParentNode>, y: NodeIndex)
    requires k <= |xs| && NodesInTree(tree, xs)
    requires forall i :: k <= i < |xs| ==> xs[i] != y
    ensures var r := HashFold(xs, k, tree, hash, template);
      r.Ok? ==> NodeAt(r.value, y) == NodeAt(tree, y)
    decreases |xs| - k
  {
    if k < |xs| {
      HashFoldElsewhere(xs, k + 1, tree, hash, template, y);
    }
  }

  /**
   * Node `xs[i]` of `t` holds the template's parent node for its original
   * slot, with the parent hash calculateParentHash gives at `xs[i]` in `t`.
   */
  predicate HashedAt(t: RatchetTree, tree: RatchetTree, xs: seq<NodeIndex>, i: nat,
    hash: (RatchetTree, NodeIndex) -> Result<seq<byte>>, template: (nat, Option<Node>) -> Option<ParentNode>)
    requires i < |xs|
  {
    template(i, NodeAt(tree, xs[i])).Some? && hash(t, xs[i]).Ok? &&
    NodeAt(t, xs[i]) == Some(NodeParent(template(i, NodeAt(tree, xs[i])).value.(parentHash := hash(t, xs[i]).value)))
  }

  /** One step of a successful pass: the hash and the template both succeeded and the node was written. */
  lemma HashFoldStep(xs: seq<NodeIndex>, k: nat, tree: RatchetTree,
    hash: (RatchetTree, NodeIndex) -> Result<seq<byte>>, template: (nat, Option<Node>) -> Option<ParentNode>)
    requires k < |xs| && NodesInTree(tree, xs)
    requires HashFold(xs, k, tree, hash, template).Ok?
    ensures var acc := HashFold(xs, k + 1, tree, hash, template);
      acc.Ok? && hash(acc.value, xs[k]).Ok? && template(k, NodeAt(acc.value, xs[k])).Some? &&
      HashFold(xs, k, tree, hash, template).value ==
        UpdateArray(acc.value, xs[k], NodeParent(template(k, NodeAt(acc.value, xs[k])).value.(parentHash := hash(acc.value, xs[k]).value)))
  {
  }

  /**
   * When the pass succeeds over nested nodes, every visited node holds its
   * template with the parent hash of the FINAL tree: the later writes are
   * all inside its subtree, which its parent hash does not read.
   */
  lemma {:induction false} HashFoldShape(xs: seq<NodeIndex>, k: nat, tree: RatchetTree,
    hash: (RatchetTree, NodeIndex) -> Result<seq<byte>>, template: (nat, Option<Node>) -> Option<ParentNode>)
    requires k <= |xs| && NodesInTree(tree, xs) && Nested(xs) && ReadsOutsideSubtree(hash)
    ensures var r := HashFold(xs, k, tree, hash, template);
      r.Ok? ==> forall i :: k <= i < |xs| ==> HashedAt(r.value, tree, xs, i, hash, template)
    decreases |xs| - k
  {
    if k < |xs| && HashFold(xs, k, tree, hash, template).Ok? {
      var x := xs[k];
      HashFoldStep(xs, k, tree, hash, template);
      HashFoldShape(xs, k + 1, tree, hash, template);
      HashFoldElsewhere(xs, k + 1, tree, hash, template, x);
      var acc := HashFold(xs, k + 1, tree, hash, template).value;
      var r := HashFold(xs, k, tree, hash, template).value;
      assert InTree(acc, x) by {
        assert InTree(tree, x);
      }
      var node := NodeParent(template(k, NodeAt(acc, x)).value.(parentHash := hash(acc, x).value));
      assert InSubtree(x, x);
      UpdateInsideKeeps(hash, acc, x, node, x);
      forall i | k < i < |xs|
        ensures HashedAt(r, tree, xs, i, hash, template)
      {
        assert InTree(acc, xs[i]) by {
          assert InTree(tree, xs[i]);
        }
        assert InSubtree(x, xs[i]) && Level(x) < Level(xs[i]);
        UpdateInsideKeeps(hash, acc, x, node, xs[i]);
        assert HashedAt(acc, tree, xs, i, hash, template);
      }
    }
  }

  /** `t1` and `t2` hold the same slot everywhere except at `leaf` and the nodes of `ys`. */
  ghost predicate AgreeOutside(t1: RatchetTree, t2: RatchetTree, leaf: NodeIndex, ys: seq<NodeIndex>) {
    forall z: NodeIndex :: z != leaf && z !in ys ==> NodeAt(t1, z) == NodeAt(t2, z)
  }

  /**
   * Two passes over the same nested nodes, on trees that differ only at the
   * nodes and at one slot `leaf` inside all of their subtrees, with templates
   * that agree on the original slots: both succeed or both fail, and the
   * results differ only at `leaf` and the nodes not yet visited.
   */
  lemma {:induction false} HashFoldSimulates(xs: seq<NodeIndex>, k: nat, t1: RatchetTree, t2: RatchetTree,
    hash: (RatchetTree, NodeIndex) -> Result<seq<byte>>,
    tm1: (nat, Option<Node>) -> Option<ParentNode>, tm2: (nat, Option<Node>) -> Option<ParentNode>, leaf: NodeIndex)
    requires k <= |xs| && NodesInTree(t1, xs) && NodesInTree(t2, xs) && Nested(xs) && ReadsOutsideSubtree(hash)
    requires TreeRootLevel(t1) == TreeRootLevel(t2)
    requires forall i :: 0 <= i < |xs| ==> InSubtree(leaf, xs[i]) && leaf != xs[i]
    requires forall i :: k <= i < |xs| ==> tm1(i, NodeAt(t1, xs[i])) == tm2(i, NodeAt(t2, xs[i]))
    requires AgreeOutside(t1, t2, leaf, xs)
    ensures var r1 := HashFold(xs, k, t1, hash, tm1);
      var r2 := HashFold(xs, k, t2, hash, tm2);
      r1.Ok? == r2.Ok? && (r1.Ok? ==> AgreeOutside(r1.value, r2.value, leaf, xs[..k]))
    decreases |xs| - k
  {
    if k == |xs| {
      assert xs[..k] == xs;
    } else {
      var x := xs[k];
      HashFoldSimulates(xs, k + 1, t1, t2, hash, tm1, tm2, leaf);
      var a1 := HashFold(xs, k + 1, t1, hash, tm1);
      var a2 := HashFold(xs, k + 1, t2, hash, tm2);
      if a1.Ok? {
        HashFoldElsewhere(xs, k + 1, t1, hash, tm1, x);
        HashFoldElsewhere(xs, k + 1, t2, hash, tm2, x);
        assert InTree(a1.value, x) by {
          assert InTree(t1, x);
        }
        AgreeBelow(a1.value, a2.value, xs, k, leaf);
        var r1 := HashFold(xs, k, t1, hash, tm1);
        var r2 := HashFold(xs, k, t2, hash, tm2);
        if r1.Ok? {
          HashFoldStep(xs, k, t1, hash, tm1);
          HashFoldStep(xs, k, t2, hash, tm2);
          forall z: NodeIndex | z != leaf && z !in xs[..k]
            ensures NodeAt(r1.value, z) == NodeAt(r2.value, z)
          {
            if z != x {
              assert z !in xs[..k + 1];
            }
          }
        }
      }
    }
  }

  /**
   * Trees that differ only at `leaf` and the nodes up to `xs[k]` agree
   * outside the subtree of `xs[k]`, since all of those lie inside it.
   */
  lemma AgreeBelow(t1: RatchetTree, t2: RatchetTree, xs: seq<NodeIndex>, k: nat, leaf: NodeIndex)
    requires k < |xs| && Nested(xs) && InSubtree(leaf, xs[k])
    requires AgreeOutside(t1, t2, leaf, xs[..k + 1])
    ensures AgreeOutsideSubtree(t1, t2, xs[k])
  {
    var x := xs[k];
    forall z: NodeIndex | !InSubtree(z, x)
      ensures NodeAt(t1, z) == NodeAt(t2, z)
    {
      assert z != leaf;
      assert z !in xs[..k + 1] by {
        assert InSubtree(x, x);
        forall i | 0 <= i < k
          ensures xs[i] != z
        {
          assert InSubtree(xs[i], x);
        }
      }
    }
  }

  /** The filtered direct path of a leaf is nested, under the root, and every node of it has the leaf in its subtree. */
  lemma FilteredPathNested(leaf: LeafIndex, tree: RatchetTree)
    requires leaf < TreeLeafCount(tree)
    ensures var xs := FilteredDirectPath(leaf, tree);
      Nested(xs) && NodesInTree(tree, xs) &&
      forall i :: 0 <= i < |xs| ==> InSubtree(LeafToNodeIndex(leaf), xs[i]) && LeafToNodeIndex(leaf) != xs[i]
  {
    var x := LeafToNodeIndex(leaf);
    var n := TreeLeafCount(tree);
    LeafInTree(tree, leaf);
    FilteredPathShape(tree, x);
    var xs := FilteredDirectPath(leaf, tree);
    assert FilteredDirectPathAndCopathResolution(leaf, tree) == FilteredPathFrom(tree, x);
    forall i, j | 0 <= i < j < |xs|
      ensures Level(xs[i]) < Level(xs[j]) && InSubtree(xs[i], xs[j])
    {
      LaterOnPath(x, n, xs[i], xs[j]);
      PathSpan(xs[i], n, xs[j]);
    }
    forall i | 0 <= i < |xs|
      ensures InSubtree(x, xs[i]) && x != xs[i]
    {
      PathSpan(x, n, xs[i]);
    }
  }

  function Reversed<T>(s: seq<T>): (r: seq<T>)
    ensures |r| == |s| && forall i :: 0 <= i < |s| ==> r[i] == s[|s| - 1 - i]
  {
    seq(|s|, i requires 0 <= i < |s| => s[|s| - 1 - i])
  }

  // ---------------------------------------------------------------------
  // insertParentHashes
  // ---------------------------------------------------------------------

  /** The template of insertParentHashes: the parent node already in the slot, or nothing (an internal error). */
  function ExistingParent(i: nat, slot: Option<Node>): Option<ParentNode> {
    if slot.Some? && slot.value.NodeParent? then Some(slot.value.parent) else None
  }

  /**
   * insertParentHashes: from the root down the filtered direct path, set
   * each node's parent hash to calculateParentHash on the tree so far. A
   * blank or leaf slot is an InternalError.
   */
  function InsertParentHashes(fdp: seq<PathStep>, tree: RatchetTree, h: Hash): Result<RatchetTree>
    requires NodesInTree(tree, StepNodes(fdp))
  {
    HashFold(StepNodes(fdp), 0, tree, ParentHashOf(h), ExistingParent)
  }

  // ---------------------------------------------------------------------
  // applyUpdatePath
  // ---------------------------------------------------------------------

  /** Some key of the path equals the key of a parent node of the tree (leaves are not compared). */
  predicate PathKeyInTree(tree: RatchetTree, nodes: seq<UpdatePathNode>) {
    exists i, j :: 0 <= i < |nodes| && 0 <= j < |tree| &&
      tree[j].Some? && tree[j].value.NodeParent? && tree[j].value.parent.hpkePublicKey == nodes[i].hpkePublicKey
  }

  /** The template of applyUpdatePath: the path node's key for that position, no unmerged leaves. */
  function PathTemplate(nodes: seq<UpdatePathNode>): (nat, Option<Node>) -> Option<ParentNode> {
    (i: nat, slot: Option<Node>) => if i < |nodes| then Some(ParentNode(nodes[i].hpkePublicKey, [], [])) else None
  }

  /**
   * What applyUpdatePath computes: the checks on the sender's leaf (unless
   * the commit is external) and on the path keys, then the copy of the tree
   * with the new leaf and, from the root down, the path's keys with the
   * parent hashes of the copy so far, then the check of the leaf's parent
   * hash.
   */
  function ApplyUpdatePathSpec(tree: RatchetTree, senderLeafIndex: LeafIndex, path: UpdatePath, h: Hash, isExternal: bool): Result<RatchetTree>
    requires (isExternal ==> senderLeafIndex < TreeLeafCount(tree)) && path.leafNode.info.InfoCommit?
  {
    var leafIndex := LeafToNodeIndex(senderLeafIndex);
    var leafToUpdate := NodeAt(tree, leafIndex);
    if !isExternal && (leafToUpdate.None? || leafToUpdate.value.NodeParent?) then Err(InternalError)
    else if !isExternal && leafToUpdate.value.leaf.data.hpkePublicKey == path.leafNode.data.hpkePublicKey then Err(ValidationError)
    else if PathKeyInTree(tree, path.nodes) then Err(ValidationError)
    else
      assert senderLeafIndex < TreeLeafCount(tree) by {
        if !isExternal {
          LeafSlotHeld(tree, senderLeafIndex);
        }
      }
      var copy := UpdateArray(tree, leafIndex, NodeLeaf(path.leafNode));
      var fdp := FilteredDirectPath(senderLeafIndex, tree);
      if |path.nodes| != |fdp| then Err(ValidationError)
      else
        FilteredPathNested(senderLeafIndex, tree);
        LeafInTree(tree, senderLeafIndex);
        UpdateKeepsRoot(tree, leafIndex, NodeLeaf(path.leafNode));
        assert NodesInTree(copy, fdp) by {
          assert NodesInTree(tree, fdp);
        }
        match HashFold(fdp, 0, copy, ParentHashOf(h), PathTemplate(path.nodes))
        case Err(e) => Err(e)
        case Ok(t) =>
          var leafParentHash := ParentHashOf(h)(t, leafIndex);
          if leafParentHash.Err? then Err(leafParentHash.error)
          else if leafParentHash.value != path.leafNode.info.parentHash then Err(ValidationError)
          else Ok(t)
  }

  /**
   * The loop of applyUpdatePath: over the reversed filtered direct path (the
   * root first), write at each node the reversed path's key at the same
   * position, with the parent hash `hash` (calculateParentHash) gives on the
   * copy so far and no unmerged leaves.
   */
  method InstallPath(copy0: RatchetTree, reverseFilteredDirectPath: seq<NodeIndex>, reverseUpdatePath: seq<UpdatePathNode>,
    hash: (RatchetTree, NodeIndex) -> Result<seq<byte>>)
    returns (r: Result<RatchetTree>)
    requires |reverseUpdatePath| == |reverseFilteredDirectPath|
    requires NodesInTree(copy0, Reversed(reverseFilteredDirectPath))
    ensures r == HashFold(Reversed(reverseFilteredDirectPath), 0, copy0, hash, PathTemplate(Reversed(reverseUpdatePath)))
  {
    var copy := copy0;
    var level := 0;
    while level < |reverseFilteredDirectPath|
      invariant 0 <= level <= |reverseFilteredDirectPath|
      invariant HashFold(Reversed(reverseFilteredDirectPath), |reverseFilteredDirectPath| - level, copy0, hash,
        PathTemplate(Reversed(reverseUpdatePath))) == Ok(copy)
    {
      var nodeIndex := reverseFilteredDirectPath[level];
      var parentHash := hash(copy, nodeIndex);
      ReversedAt(reverseFilteredDirectPath, level);
      ReversedAt(reverseUpdatePath, level);
      InstallLevel(Reversed(reverseFilteredDirectPath), Reversed(reverseUpdatePath), reverseFilteredDirectPath, reverseUpdatePath,
        level, copy0, hash, copy);
      if parentHash.Err? {
        return Err(parentHash.error);
      }
      copy := UpdateArray(copy, nodeIndex,
        NodeParent(ParentNode(reverseUpdatePath[level].hpkePublicKey, parentHash.value, [])));
      level := level + 1;
    }
    return Ok(copy);
  }

  /**
   * One iteration of the loop of applyUpdatePath, at position `level` of the
   * reversed lists `rfdp` and `rup`, which is position `|xs| - 1 - level`
   * of the lists `xs` and `ns` the fold walks.
   */
  lemma InstallLevel(xs: seq<NodeIndex>, ns: seq<UpdatePathNode>, rfdp: seq<NodeIndex>, rup: seq<UpdatePathNode>, level: nat,
    tree: RatchetTree, hash: (RatchetTree, NodeIndex) -> Result<seq<byte>>, acc: RatchetTree)
    requires |xs| == |rfdp| && |ns| == |xs| && |rup| == |rfdp| && level < |rfdp| && NodesInTree(tree, xs)
    requires xs[|xs| - 1 - level] == rfdp[level] && ns[|ns| - 1 - level] == rup[level]
    requires HashFold(xs, |xs| - level, tree, hash, PathTemplate(ns)) == Ok(acc)
    ensures var ph := hash(acc, rfdp[level]);
      (ph.Err? ==> HashFold(xs, 0, tree, hash, PathTemplate(ns)) == Err(ph.error)) &&
      (ph.Ok? ==>
        HashFold(xs, |xs| - (level + 1), tree, hash, PathTemplate(ns))
        == Ok(UpdateArray(acc, rfdp[level], NodeParent(ParentNode(rup[level].hpkePublicKey, ph.value, [])))))
  {
    var k := |xs| - 1 - level;
    assert HashFold(xs, k + 1, tree, hash, PathTemplate(ns)) == Ok(acc);
    InstallStep(xs, k, tree, hash, ns, acc);
  }

  /** Position `i` of a list is position `|s| - 1 - i` of its reversal. */
  lemma ReversedAt<T>(s: seq<T>, i: nat)
    requires i < |s|
    ensures |Reversed(s)| == |s| && Reversed(s)[|s| - 1 - i] == s[i]
  {
  }

  /** One step of the loop of applyUpdatePath, at position `k` of the filtered direct path. */
  lemma InstallStep(xs: seq<NodeIndex>, k: nat, tree: RatchetTree, hash: (RatchetTree, NodeIndex) -> Result<seq<byte>>,
    nodes: seq<UpdatePathNode>, acc: RatchetTree)
    requires k < |xs| && k < |nodes| && NodesInTree(tree, xs)
    requires HashFold(xs, k + 1, tree, hash, PathTemplate(nodes)) == Ok(acc)
    ensures var ph := hash(acc, xs[k]);
      (ph.Err? ==> HashFold(xs, 0, tree, hash, PathTemplate(nodes)) == Err(ph.error)) &&
      (ph.Ok? ==> (HashFold(xs, k, tree, hash, PathTemplate(nodes)) ==
        Ok(UpdateArray(acc, xs[k], NodeParent(ParentNode(nodes[k].hpkePublicKey, ph.value, []))))))
  {
    HashFoldNext(xs, k, tree, hash, PathTemplate(nodes), acc);
    if hash(acc, xs[k]).Err? {
      HashFoldErrSticks(xs, 0, k, tree, hash, PathTemplate(nodes));
    }
  }

  /** A list of nodes lies under the root exactly when its reversal does. */
  lemma ReversedNodesInTree(tree: RatchetTree, xs: seq<NodeIndex>)
    ensures NodesInTree(tree, Reversed(xs)) <==> NodesInTree(tree, xs)
  {
    var ys := Reversed(xs);
    if NodesInTree(tree, xs) {
      forall i | 0 <= i < |ys|
        ensures InTree(tree, ys[i])
      {
        assert ys[i] == xs[|xs| - 1 - i];
      }
    }
    if NodesInTree(tree, ys) {
      forall i | 0 <= i < |xs|
        ensures InTree(tree, xs[i])
      {
        assert ys[|xs| - 1 - i] == xs[i];
      }
    }
  }

  /** The step of the pass at position `k` from the tree after the later positions. */
  lemma HashFoldNext(xs: seq<NodeIndex>, k: nat, tree: RatchetTree,
    hash: (RatchetTree, NodeIndex) -> Result<seq<byte>>, template: (nat, Option<Node>) -> Option<ParentNode>, acc: RatchetTree)
    requires k < |xs| && NodesInTree(tree, xs)
    requires HashFold(xs, k + 1, tree, hash, template) == Ok(acc)
    ensures hash(acc, xs[k]).Err? ==> HashFold(xs, k, tree, hash, template).Err?
    ensures hash(acc, xs[k]).Ok? && template(k, NodeAt(acc, xs[k])).Some? ==>
      HashFold(xs, k, tree, hash, template) ==
        Ok(UpdateArray(acc, xs[k], NodeParent(template(k, NodeAt(acc, xs[k])).value.(parentHash := hash(acc, xs[k]).value))))
  {
  }

  lemma ReversedTwice<T>(s: seq<T>)
    ensures Reversed(Reversed(s)) == s
  {
  }

  /**
   * applyUpdatePath: the checks, then a copy of the tree with the new leaf,
   * then a loop over the filtered direct path from the root down writing
   * each path node's key with the parent hash of the copy so far, then the
   * check of the leaf's parent hash. The input tree is a value and is left
   * as it was.
   */
  method ApplyUpdatePath(tree: RatchetTree, senderLeafIndex: LeafIndex, path: UpdatePath, h: Hash, isExternal: bool)
    returns (r: Result<RatchetTree>)
    requires (isExternal ==> senderLeafIndex < TreeLeafCount(tree)) && path.leafNode.info.InfoCommit?
    ensures r == ApplyUpdatePathSpec(tree, senderLeafIndex, path, h, isExternal)
  {
    var leafIndex := LeafToNodeIndex(senderLeafIndex);
    if !isExternal {
      var leafToUpdate := NodeAt(tree, leafIndex);
      if leafToUpdate.None? || leafToUpdate.value.NodeParent? {
        return Err(InternalError);
      }
      if leafToUpdate.value.leaf.data.hpkePublicKey == path.leafNode.data.hpkePublicKey {
        return Err(ValidationError);
      }
    }
    if PathKeyInTree(tree, path.nodes) {
      return Err(ValidationError);
    }
    if !isExternal {
      LeafSlotHeld(tree, senderLeafIndex);
    }
    var copy := UpdateArray(tree, leafIndex, NodeLeaf(path.leafNode));
    var fdp := FilteredDirectPath(senderLeafIndex, tree);
    var reverseFilteredDirectPath := Reversed(fdp);
    var reverseUpdatePath := Reversed(path.nodes);
    if |reverseUpdatePath| != |reverseFilteredDirectPath| {
      return Err(ValidationError);
    }
    FilteredPathNested(senderLeafIndex, tree);
    LeafInTree(tree, senderLeafIndex);
    UpdateKeepsRoot(tree, leafIndex, NodeLeaf(path.leafNode));
    assert NodesInTree(copy, fdp) by {
      assert NodesInTree(tree, fdp);
    }
    ReversedNodesInTree(copy, fdp);
    ReversedTwice(fdp);
    ReversedTwice(path.nodes);
    ghost var start := copy;
    var installed := InstallPath(copy, reverseFilteredDirectPath, reverseUpdatePath, ParentHashOf(h));
    if installed.Err? {
      return Err(installed.error);
    }
    copy := installed.value;
    assert InTree(copy, leafIndex) by {
      assert InTree(start, leafIndex);
    }
    var leafParentHash := CalculateParentHash(copy, leafIndex, h);
    if leafParentHash.Err? {
      return Err(leafParentHash.error);
    }
    if leafParentHash.value.0 != path.leafNode.info.parentHash {
      return Err(ValidationError);
    }
    return Ok(copy);
  }

  /**
   * A member commit from a sender index with no slot in the tree is the
   * InternalError of a missing leaf, whatever the path.
   */
  lemma ApplyUpdatePathOutsideTree(tree: RatchetTree, senderLeafIndex: LeafIndex, path: UpdatePath, h: Hash)
    requires senderLeafIndex >= TreeLeafCount(tree) && path.leafNode.info.InfoCommit?
    ensures ApplyUpdatePathSpec(tree, senderLeafIndex, path, h, false) == Err(InternalError)
  {
    if LeafToNodeIndex(senderLeafIndex) < |tree| {
      LeafSlotHeld(tree, senderLeafIndex);
    }
  }

  /**
   * A successful applyUpdatePath passed every check, and returns the tree
   * whose sender leaf is the path's leaf node, whose filtered-direct-path
   * node `j` is a parent node with the path's key `j`, no unmerged leaves and
   * the parent hash calculateParentHash gives on the returned tree itself,
   * whose leaf parent hash is the one calculateParentHash gives at the leaf,
   * and whose other slots and root are those of the input tree.
   */
  lemma ApplyUpdatePathResult(tree: RatchetTree, senderLeafIndex: LeafIndex, path: UpdatePath, h: Hash, isExternal: bool)
    requires senderLeafIndex < TreeLeafCount(tree) && path.leafNode.info.InfoCommit?
    requires ApplyUpdatePathSpec(tree, senderLeafIndex, path, h, isExternal).Ok?
    ensures var leaf := NodeAt(tree, LeafToNodeIndex(senderLeafIndex));
      !isExternal ==> leaf.Some? && leaf.value.NodeLeaf? && leaf.value.leaf.data.hpkePublicKey != path.leafNode.data.hpkePublicKey
    ensures !PathKeyInTree(tree, path.nodes)
    ensures |path.nodes| == |FilteredDirectPath(senderLeafIndex, tree)|
    ensures var t := ApplyUpdatePathSpec(tree, senderLeafIndex, path, h, isExternal).value;
      TreeRootLevel(t) == TreeRootLevel(tree) && NodeAt(t, LeafToNodeIndex(senderLeafIndex)) == Some(NodeLeaf(path.leafNode))
    ensures var t := ApplyUpdatePathSpec(tree, senderLeafIndex, path, h, isExternal).value;
      ParentHashOf(h)(t, LeafToNodeIndex(senderLeafIndex)) == Ok(path.leafNode.info.parentHash)
    ensures var t := ApplyUpdatePathSpec(tree, senderLeafIndex, path, h, isExternal).value;
      var fdp := FilteredDirectPath(senderLeafIndex, tree);
      forall j :: 0 <= j < |fdp| ==> (ParentHashOf(h)(t, fdp[j]).Ok? &&
        NodeAt(t, fdp[j]) == Some(NodeParent(ParentNode(path.nodes[j].hpkePublicKey, ParentHashOf(h)(t, fdp[j]).value, []))))
    ensures var t := ApplyUpdatePathSpec(tree, senderLeafIndex, path, h, isExternal).value;
      forall y: NodeIndex :: y != LeafToNodeIndex(senderLeafIndex) && y !in FilteredDirectPath(senderLeafIndex, tree) ==>
        NodeAt(t, y) == NodeAt(tree, y)
  {
    var leafIndex := LeafToNodeIndex(senderLeafIndex);
    var copy := UpdateArray(tree, leafIndex, NodeLeaf(path.leafNode));
    var fdp := FilteredDirectPath(senderLeafIndex, tree);
    var hash := ParentHashOf(h);
    var template := PathTemplate(path.nodes);
    FilteredPathNested(senderLeafIndex, tree);
    LeafInTree(tree, senderLeafIndex);
    UpdateKeepsRoot(tree, leafIndex, NodeLeaf(path.leafNode));
    assert NodesInTree(copy, fdp) by {
      assert NodesInTree(tree, fdp);
    }
    var t := HashFold(fdp, 0, copy, hash, template).value;
    assert ApplyUpdatePathSpec(tree, senderLeafIndex, path, h, isExternal) == Ok(t);
    ParentHashOfLocal(h);
    HashFoldShape(fdp, 0, copy, hash, template);
    HashFoldElsewhere(fdp, 0, copy, hash, template, leafIndex);
    forall j | 0 <= j < |fdp|
      ensures hash(t, fdp[j]).Ok? && NodeAt(t, fdp[j]) == Some(NodeParent(ParentNode(path.nodes[j].hpkePublicKey, hash(t, fdp[j]).value, [])))
    {
      assert HashedAt(t, copy, fdp, j, hash, template);
    }
    forall y: NodeIndex | y != leafIndex && y !in fdp
      ensures NodeAt(t, y) == NodeAt(tree, y)
    {
      HashFoldElsewhere(fdp, 0, copy, hash, template, y);
    }
  }

  // ---------------------------------------------------------------------
  // firstCommonAncestor and firstMatchAncestor
  // ---------------------------------------------------------------------

  /**
   * isAncestor(leafToNodeIndex(leafIndex), x, tree.length): `x` is on the
   * direct path of the leaf. A leaf outside the tree has no ancestors.
   */
  predicate LeafAncestor(tree: RatchetTree, leafIndex: LeafIndex, x: NodeIndex) {
    leafIndex < TreeLeafCount(tree) && (LeafInTree(tree, leafIndex); IsAncestor(LeafToNodeIndex(leafIndex), x, TreeLeafCount(tree)))
  }

  /**
   * The first step of `fdp`, from step `n` on, whose node is an ancestor of
   * `leafIndex`, or none.
   */
  function FirstAncestorStep(tree: RatchetTree, leafIndex: LeafIndex, fdp: seq<PathStep>, n: nat): (r: Option<nat>)
    requires n <= |fdp|
    ensures r.Some? ==>
      n <= r.value < |fdp| && LeafAncestor(tree, leafIndex, fdp[r.value].nodeIndex)
      && forall m :: n <= m < r.value ==> !LeafAncestor(tree, leafIndex, fdp[m].nodeIndex)
    ensures r.None? <==> forall m :: n <= m < |fdp| ==> !LeafAncestor(tree, leafIndex, fdp[m].nodeIndex)
    decreases |fdp| - n
  {
    if n == |fdp| then None
    else if LeafAncestor(tree, leafIndex, fdp[n].nodeIndex) then Some(n)
    else FirstAncestorStep(tree, leafIndex, fdp, n + 1)
  }

  /**
   * The node firstCommonAncestor finds: the first node of the sender's
   * filtered direct path that is an ancestor of `leafIndex`, or a
   * ValidationError when there is none.
   */
  function FirstCommonAncestorOf(tree: RatchetTree, leafIndex: LeafIndex, senderLeafIndex: LeafIndex): (r: Result<NodeIndex>)
    requires senderLeafIndex < TreeLeafCount(tree)
    ensures var fdp := FilteredDirectPathAndCopathResolution(senderLeafIndex, tree);
      r.Ok? <==> exists n :: 0 <= n < |fdp| && LeafAncestor(tree, leafIndex, fdp[n].nodeIndex)
    ensures r.Err? ==> r.error == ValidationError
    ensures var fdp := FilteredDirectPathAndCopathResolution(senderLeafIndex, tree);
      r.Ok? ==> exists n :: (0 <= n < |fdp| && r.value == fdp[n].nodeIndex && LeafAncestor(tree, leafIndex, r.value) &&
        forall m :: 0 <= m < n ==> !LeafAncestor(tree, leafIndex, fdp[m].nodeIndex))
  {
    var fdp := FilteredDirectPathAndCopathResolution(senderLeafIndex, tree);
    var n := FirstAncestorStep(tree, leafIndex, fdp, 0);
    if n.None? then Err(ValidationError) else Ok(fdp[n.value].nodeIndex)
  }

  /** firstCommonAncestor: the loop that returns at the first ancestor on the sender's filtered direct path. */
  method FirstCommonAncestor(tree: RatchetTree, leafIndex: LeafIndex, senderLeafIndex: LeafIndex) returns (r: Result<NodeIndex>)
    requires senderLeafIndex < TreeLeafCount(tree)
    ensures r == FirstCommonAncestorOf(tree, leafIndex, senderLeafIndex)
  {
    var fdp := FilteredDirectPathAndCopathResolution(senderLeafIndex, tree);
    for n := 0 to |fdp|
      invariant FirstAncestorStep(tree, leafIndex, fdp, n) == FirstAncestorStep(tree, leafIndex, fdp, 0)
    {
      if LeafAncestor(tree, leafIndex, fdp[n].nodeIndex) {
        return Ok(fdp[n].nodeIndex);
      }
    }
    return Err(ValidationError);
  }

  /** What firstMatchAncestor returns: the node, its copath resolution, and the path node at its position if there is one. */
  datatype AncestorMatch = AncestorMatch(nodeIndex: NodeIndex, resolution: seq<NodeIndex>, updateNode: Option<UpdatePathNode>)

  /**
   * What firstMatchAncestor finds: as firstCommonAncestor, but with the
   * step's resolution and the path node at the same position (absent when
   * the path is shorter).
   */
  function FirstMatchAncestorOf(tree: RatchetTree, leafIndex: LeafIndex, senderLeafIndex: LeafIndex, path: UpdatePath)
    : (r: Result<AncestorMatch>)
    requires senderLeafIndex < TreeLeafCount(tree)
    ensures var fdp := FilteredDirectPathAndCopathResolution(senderLeafIndex, tree);
      r.Ok? <==> exists n :: 0 <= n < |fdp| && LeafAncestor(tree, leafIndex, fdp[n].nodeIndex)
    ensures r.Err? ==> r.error == ValidationError
    ensures var fdp := FilteredDirectPathAndCopathResolution(senderLeafIndex, tree);
      r.Ok? ==> exists n :: (0 <= n < |fdp| && LeafAncestor(tree, leafIndex, fdp[n].nodeIndex) &&
        (forall m :: 0 <= m < n ==> !LeafAncestor(tree, leafIndex, fdp[m].nodeIndex)) &&
        r.value == AncestorMatch(fdp[n].nodeIndex, fdp[n].resolution, if n < |path.nodes| then Some(path.nodes[n]) else None))
    ensures r.Ok? ==> r.value.nodeIndex == FirstCommonAncestorOf(tree, leafIndex, senderLeafIndex).value
  {
    var fdp := FilteredDirectPathAndCopathResolution(senderLeafIndex, tree);
    var n := FirstAncestorStep(tree, leafIndex, fdp, 0);
    if n.None? then Err(ValidationError)
    else
      var k := n.value;
      Ok(AncestorMatch(fdp[k].nodeIndex, fdp[k].resolution, if k < |path.nodes| then Some(path.nodes[k]) else None))
  }

  /** firstMatchAncestor: the same loop as firstCommonAncestor, returning the match at the first ancestor. */
  method FirstMatchAncestor(tree: RatchetTree, leafIndex: LeafIndex, senderLeafIndex: LeafIndex, path: UpdatePath)
    returns (r: Result<AncestorMatch>)
    requires senderLeafIndex < TreeLeafCount(tree)
    ensures r == FirstMatchAncestorOf(tree, leafIndex, senderLeafIndex, path)
  {
    var fdp := FilteredDirectPathAndCopathResolution(senderLeafIndex, tree);
    for n := 0 to |fdp|
      invariant FirstAncestorStep(tree, leafIndex, fdp, n) == FirstAncestorStep(tree, leafIndex, fdp, 0)
    {
      if LeafAncestor(tree, leafIndex, fdp[n].nodeIndex) {
        var updateNode := if n < |path.nodes| then Some(path.nodes[n]) else None;
        return Ok(AncestorMatch(fdp[n].nodeIndex, fdp[n].resolution, updateNode));
      }
    }
    return Err(ValidationError);
  }

  // ---------------------------------------------------------------------
  // encryptSecretsForPath
  // ---------------------------------------------------------------------

  /**
   * The path secret sealed with label "UpdatePathNode" to the key the node
   * has in the original tree. A blank slot, which the source dereferences
   * with a non-null assertion, is an InternalError here.
   */
  function EncryptToNode(originalTree: RatchetTree, context: seq<byte>, hpke: Hpke, secret: seq<byte>, nodeIndex: NodeIndex): Result<HpkeCiphertext> {
    var slot := NodeAt(originalTree, nodeIndex);
    if slot.None? then Err(InternalError)
    else
      var (kemOutput, ciphertext) := EncryptWithLabel(hpke, GetHpkePublicKey(slot.value), "UpdatePathNode", context, secret);
      Ok(HpkeCiphertext(kemOutput, ciphertext))
  }

  /** One ciphertext per node of `sendTo`, in order; fails when any of their slots is blank. */
  function EncryptToAll(originalTree: RatchetTree, context: seq<byte>, hpke: Hpke, secret: seq<byte>, sendTo: seq<NodeIndex>): (r: Result<seq<HpkeCiphertext>>)
    ensures r.Ok? <==> forall k :: 0 <= k < |sendTo| ==> NodeAt(originalTree, sendTo[k]).Some?
    ensures r.Err? ==> r.error == InternalError
    ensures r.Ok? ==> |r.value| == |sendTo|
    ensures r.Ok? ==> forall k :: 0 <= k < |sendTo| ==> Ok(r.value[k]) == EncryptToNode(originalTree, context, hpke, secret, sendTo[k])
  {
    if sendTo == [] then Ok([])
    else
      var first := EncryptToNode(originalTree, context, hpke, secret, sendTo[0]);
      var rest := EncryptToAll(originalTree, context, hpke, secret, sendTo[1..]);
      if first.Err? then Err(first.error)
      else if rest.Err? then Err(rest.error)
      else Ok([first.value] + rest.value)
  }

  /**
   * encryptSecretsForPath for one path secret: the node's key in the updated
   * tree and the secret encrypted to each node it is sent to, under the
   * encoded updated group context.
   */
  function EncryptSecretsForPath(originalTree: RatchetTree, updatedTree: RatchetTree, updatedGroupContext: GroupContext,
    cs: CiphersuiteImpl, pathSecret: PathSecret): Result<UpdatePathNode>
  {
    var slot := NodeAt(updatedTree, pathSecret.nodeIndex);
    if slot.None? then Err(InternalError)
    else
      var encrypted := EncryptToAll(originalTree, EncodeGroupContext(updatedGroupContext), cs.hpke, pathSecret.secret, pathSecret.sendTo);
      if encrypted.Err? then Err(encrypted.error)
      else Ok(UpdatePathNode(GetHpkePublicKey(slot.value), encrypted.value))
  }

  /** encryptSecretsForPath mapped over the path secrets, in order. */
  function EncryptPath(originalTree: RatchetTree, updatedTree: RatchetTree, updatedGroupContext: GroupContext,
    cs: CiphersuiteImpl, pathSecrets: seq<PathSecret>): (r: Result<seq<UpdatePathNode>>)
    ensures r.Ok? ==> |r.value| == |pathSecrets|
    ensures r.Ok? ==> forall j :: 0 <= j < |pathSecrets| ==> Ok(r.value[j]) == EncryptSecretsForPath(originalTree, updatedTree, updatedGroupContext, cs, pathSecrets[j])
    ensures r.Err? ==> exists j :: 0 <= j < |pathSecrets| && EncryptSecretsForPath(originalTree, updatedTree, updatedGroupContext, cs, pathSecrets[j]).Err?
  {
    if pathSecrets == [] then Ok([])
    else
      var first := EncryptSecretsForPath(originalTree, updatedTree, updatedGroupContext, cs, pathSecrets[0]);
      var rest := EncryptPath(originalTree, updatedTree, updatedGroupContext, cs, pathSecrets[1..]);
      if first.Err? then Err(first.error)
      else if rest.Err? then
        var j :| 0 <= j < |pathSecrets[1..]| && EncryptSecretsForPath(originalTree, updatedTree, updatedGroupContext, cs, pathSecrets[1..][j]).Err?;
        assert pathSecrets[1..][j] == pathSecrets[j + 1];
        Err(rest.error)
      else Ok([first.value] + rest.value)
  }

  /**
   * An encrypted path node carries the node's key in the updated tree, and
   * the holder of the private key of the `k`-th node it is sent to reads the
   * path secret back with label "UpdatePathNode" over the same context.
   */
  lemma EncryptedPathNodeDecrypts(originalTree: RatchetTree, updatedTree: RatchetTree, updatedGroupContext: GroupContext,
    cs: CiphersuiteImpl, pathSecret: PathSecret, k: nat, privateKey: seq<byte>)
    requires EncryptSecretsForPath(originalTree, updatedTree, updatedGroupContext, cs, pathSecret).Ok?
    requires k < |pathSecret.sendTo|
    requires NodeAt(originalTree, pathSecret.sendTo[k]).Some?
    requires HpkeConsistent(cs.hpke, GetHpkePublicKey(NodeAt(originalTree, pathSecret.sendTo[k]).value), privateKey)
    ensures var node := EncryptSecretsForPath(originalTree, updatedTree, updatedGroupContext, cs, pathSecret).value;
      NodeAt(updatedTree, pathSecret.nodeIndex).Some? &&
      node.hpkePublicKey == GetHpkePublicKey(NodeAt(updatedTree, pathSecret.nodeIndex).value) &&
      |node.encryptedPathSecret| == |pathSecret.sendTo| &&
      DecryptWithLabel(cs.hpke, privateKey, "UpdatePathNode", EncodeGroupContext(updatedGroupContext),
        node.encryptedPathSecret[k].kemOutput, node.encryptedPathSecret[k].ciphertext) == Some(pathSecret.secret)
  {
    var context := EncodeGroupContext(updatedGroupContext);
    var key := GetHpkePublicKey(NodeAt(originalTree, pathSecret.sendTo[k]).value);
    EncryptThenDecrypt(cs.hpke, key, privateKey, "UpdatePathNode", context, pathSecret.secret);
  }

  // ---------------------------------------------------------------------
  // createUpdatePath
  // ---------------------------------------------------------------------

  /** What createUpdatePath returns: the committer's new tree, the path to send, the path secrets and the leaf's private key. */
  datatype CreatedPath = CreatedPath(tree: RatchetTree, updatePath: UpdatePath, pathSecrets: seq<PathSecret>, leafPrivateKey: seq<byte>)

  /** The committer's new leaf before signing: fresh HPKE key, the old leaf's other fields, the parent hash, bound to the group and leaf. */
  function CommitLeafTbs(original: LeafNode, hpkePublicKey: seq<byte>, parentHash: seq<byte>, groupId: seq<byte>, senderLeafIndex: LeafIndex): (r: LeafNodeTbs)
    ensures r.info.InfoCommit? && r.groupInfo.GroupIdLeafIndex? && r.groupInfo.source == CommitSource
  {
    LeafNodeTbs(
      LeafNodeData(hpkePublicKey, original.data.signaturePublicKey, original.data.credential, original.data.capabilities),
      InfoCommit(parentHash), original.extensions,
      GroupIdLeafIndex(CommitSource, groupId, senderLeafIndex % 0x1_0000_0000))
  }

  /**
   * The committer's half of createUpdatePath: the fresh keys and path
   * secrets along the filtered direct path, the parent hashes from the root
   * down, and the new leaf, signed, with the parent hash calculateParentHash
   * gives for it. `pathSecret` is the random leaf path secret. The result is
   * the final tree, the signed leaf and the path secrets root first.
   */
  function CommitterTree(originalTree: RatchetTree, senderLeafIndex: LeafIndex, groupId: seq<byte>,
    signaturePrivateKey: seq<byte>, cs: CiphersuiteImpl, pathSecret: seq<byte>): (r: Result<(RatchetTree, LeafNode, seq<PathSecret>)>)
    requires senderLeafIndex < TreeLeafCount(originalTree)
    ensures r.Ok? ==> |r.value.2| == |FilteredDirectPathAndCopathResolution(senderLeafIndex, originalTree)| + 1
  {
    var leafIndex := LeafToNodeIndex(senderLeafIndex);
    var originalLeafNode := NodeAt(originalTree, leafIndex);
    if originalLeafNode.None? || originalLeafNode.value.NodeParent? then Err(InternalError)
    else
      var leafKeypair := cs.hpke.deriveKeyPair(DeriveSecret(cs.kdf, pathSecret, "node"));
      var fdp := FilteredDirectPathAndCopathResolution(senderLeafIndex, originalTree);
      var (ps, updatedTree) := ApplyInitialTreeUpdate(fdp, pathSecret, senderLeafIndex, originalTree, PathKeysOf(cs));
      CommitterFoldInTree(originalTree, senderLeafIndex, pathSecret, cs);
      match InsertParentHashes(fdp, updatedTree, cs.hash)
      case Err(e) => Err(e)
      case Ok(treeWithHashes) =>
        var leafParentHash := ParentHashOf(cs.hash)(treeWithHashes, leafIndex);
        if leafParentHash.Err? then Err(leafParentHash.error)
        else
          var tbs := CommitLeafTbs(originalLeafNode.value.leaf, leafKeypair.publicKey, leafParentHash.value, groupId, senderLeafIndex);
          var updatedLeafNode := SignLeafNodeCommit(cs.signature, tbs, signaturePrivateKey);
          Ok((UpdateArray(treeWithHashes, leafIndex, NodeLeaf(updatedLeafNode)), updatedLeafNode, ps))
  }

  /** The steps of the filtered direct path stay under the root of the tree the initial update writes. */
  lemma CommitterFoldInTree(originalTree: RatchetTree, senderLeafIndex: LeafIndex, pathSecret: seq<byte>, cs: CiphersuiteImpl)
    requires senderLeafIndex < TreeLeafCount(originalTree)
    ensures var fdp := FilteredDirectPathAndCopathResolution(senderLeafIndex, originalTree);
      var t := ApplyInitialTreeUpdate(fdp, pathSecret, senderLeafIndex, originalTree, PathKeysOf(cs)).1;
      NodesInTree(t, StepNodes(fdp)) && TreeRootLevel(t) == TreeRootLevel(originalTree)
  {
    var fdp := FilteredDirectPathAndCopathResolution(senderLeafIndex, originalTree);
    FilteredPathNested(senderLeafIndex, originalTree);
    FoldRoot(fdp, |fdp|, pathSecret, senderLeafIndex, originalTree, PathKeysOf(cs));
  }

  /**
   * The group context of the next epoch: the new tree hash and the epoch plus
   * one. The source keeps the epoch as an unbounded integer; it only reaches
   * the bytes of the HPKE context through its 64-bit encoding, so the value
   * is reduced modulo 2^64 here to match those bytes.
   */
  function NextEpochContext(groupContext: GroupContext, treeHash: seq<byte>): GroupContext {
    groupContext.(treeHash := treeHash, epoch := (groupContext.epoch + 1) % 0x1_0000_0000_0000_0000)
  }

  /**
   * createUpdatePath: the committer's tree and leaf, then the tree hash of
   * the final tree in the group context of the next epoch, and the path
   * secrets below the root's (the leaf's own dropped), leaf side first,
   * each encrypted to its copath resolution in the original tree.
   */
  function CreateUpdatePath(originalTree: RatchetTree, senderLeafIndex: LeafIndex, groupContext: GroupContext,
    signaturePrivateKey: seq<byte>, cs: CiphersuiteImpl, pathSecret: seq<byte>): Result<CreatedPath>
    requires senderLeafIndex < TreeLeafCount(originalTree)
  {
    match CommitterTree(originalTree, senderLeafIndex, groupContext.groupId, signaturePrivateKey, cs, pathSecret)
    case Err(e) => Err(e)
    case Ok((finalTree, updatedLeafNode, ps)) =>
      var updatedTreeHash := TreeHashRoot(finalTree, cs.hash);
      if updatedTreeHash.Err? then Err(updatedTreeHash.error)
      else
        var updatedGroupContext := NextEpochContext(groupContext, updatedTreeHash.value);
        var pathSecrets := Reversed(ps[..|ps| - 1]);
        match EncryptPath(originalTree, finalTree, updatedGroupContext, cs, pathSecrets)
        case Err(e) => Err(e)
        case Ok(updatePathNodes) =>
          var leafKeypair := cs.hpke.deriveKeyPair(DeriveSecret(cs.kdf, pathSecret, "node"));
          Ok(CreatedPath(finalTree, UpdatePath(updatedLeafNode, updatePathNodes), pathSecrets, leafKeypair.privateKey))
  }

  /**
   * The path secrets of section 7.4 of RFC 9420 along the filtered direct
   * path, leaf side first: one per step, for that step's node and copath
   * resolution, the first deriveSecret(leaf secret, "path") and each next
   * one deriveSecret(previous, "path").
   */
  predicate SecretChain(ps: seq<PathSecret>, fdp: seq<PathStep>, kdf: Kdf, leafSecret: seq<byte>) {
    |ps| == |fdp| &&
    forall j :: 0 <= j < |fdp| ==>
      ps[j].nodeIndex == fdp[j].nodeIndex && ps[j].sendTo == fdp[j].resolution &&
      ps[j].secret == NextPathSecret(kdf, if j == 0 then leafSecret else ps[j - 1].secret)
  }

  /** Path secrets listed root first, each derived from the one after it, form the chain once the leaf's is dropped and the rest reversed. */
  lemma ReversedSecretChain(all: seq<PathSecret>, fdp: seq<PathStep>, kdf: Kdf, pathSecret: seq<byte>)
    requires |all| == |fdp| + 1 && all[|fdp|].secret == pathSecret
    requires forall j :: 0 <= j < |fdp| ==>
      all[j].nodeIndex == fdp[|fdp| - 1 - j].nodeIndex && all[j].sendTo == fdp[|fdp| - 1 - j].resolution &&
      all[j].secret == NextPathSecret(kdf, all[j + 1].secret)
    ensures SecretChain(Reversed(all[..|all| - 1]), fdp, kdf, pathSecret)
  {
    var n := |fdp|;
    var ps := Reversed(all[..n]);
    forall j | 0 <= j < n
      ensures ps[j].nodeIndex == fdp[j].nodeIndex && ps[j].sendTo == fdp[j].resolution &&
        ps[j].secret == NextPathSecret(kdf, if j == 0 then pathSecret else ps[j - 1].secret)
    {
      assert ps[j] == all[n - 1 - j];
      if j > 0 {
        assert ps[j - 1] == all[n - j];
      }
    }
  }

  /** The path secrets createUpdatePath sends, the leaf's dropped and the rest reversed, form the chain. */
  lemma PathSecretsLeafFirst(fdp: seq<PathStep>, pathSecret: seq<byte>, senderLeafIndex: LeafIndex, tree: RatchetTree, cs: CiphersuiteImpl)
    ensures var all := ApplyInitialTreeUpdate(fdp, pathSecret, senderLeafIndex, tree, PathKeysOf(cs)).0;
      SecretChain(Reversed(all[..|all| - 1]), fdp, cs.kdf, pathSecret)
  {
    InitialPathSecrets(fdp, pathSecret, senderLeafIndex, tree, PathKeysOf(cs));
    ReversedSecretChain(ApplyInitialTreeUpdate(fdp, pathSecret, senderLeafIndex, tree, PathKeysOf(cs)).0, fdp, cs.kdf, pathSecret);
  }

  /**
   * createUpdatePath's path secrets form the chain of section 7.4 of RFC
   * 9420 along the filtered direct path, the path carries one node per
   * step, and the private key returned is the leaf's, from
   * deriveSecret(leaf secret, "node").
   */
  lemma CreatedPathSecrets(originalTree: RatchetTree, senderLeafIndex: LeafIndex, groupContext: GroupContext,
    signaturePrivateKey: seq<byte>, cs: CiphersuiteImpl, pathSecret: seq<byte>)
    requires senderLeafIndex < TreeLeafCount(originalTree)
    requires CreateUpdatePath(originalTree, senderLeafIndex, groupContext, signaturePrivateKey, cs, pathSecret).Ok?
    ensures var c := CreateUpdatePath(originalTree, senderLeafIndex, groupContext, signaturePrivateKey, cs, pathSecret).value;
      var fdp := FilteredDirectPathAndCopathResolution(senderLeafIndex, originalTree);
      SecretChain(c.pathSecrets, fdp, cs.kdf, pathSecret) && |c.updatePath.nodes| == |fdp| &&
      c.leafPrivateKey == cs.hpke.deriveKeyPair(DeriveSecret(cs.kdf, pathSecret, "node")).privateKey
  {
    var fdp := FilteredDirectPathAndCopathResolution(senderLeafIndex, originalTree);
    CreateUpdatePathParts(originalTree, senderLeafIndex, groupContext, signaturePrivateKey, cs, pathSecret);
    CommitterTreeParts(originalTree, senderLeafIndex, groupContext.groupId, signaturePrivateKey, cs, pathSecret);
    PathSecretsLeafFirst(fdp, pathSecret, senderLeafIndex, originalTree, cs);
  }

  /** A successful createUpdatePath is made of a successful committer tree, its tree hash and the encrypted path. */
  lemma CreateUpdatePathParts(originalTree: RatchetTree, senderLeafIndex: LeafIndex, groupContext: GroupContext,
    signaturePrivateKey: seq<byte>, cs: CiphersuiteImpl, pathSecret: seq<byte>)
    requires senderLeafIndex < TreeLeafCount(originalTree)
    requires CreateUpdatePath(originalTree, senderLeafIndex, groupContext, signaturePrivateKey, cs, pathSecret).Ok?
    ensures var c := CreateUpdatePath(originalTree, senderLeafIndex, groupContext, signaturePrivateKey, cs, pathSecret).value;
      var m := CommitterTree(originalTree, senderLeafIndex, groupContext.groupId, signaturePrivateKey, cs, pathSecret);
      m.Ok? && TreeHashRoot(m.value.0, cs.hash).Ok? &&
      c.tree == m.value.0 && c.updatePath.leafNode == m.value.1 &&
      c.pathSecrets == Reversed(m.value.2[..|m.value.2| - 1]) &&
      c.leafPrivateKey == cs.hpke.deriveKeyPair(DeriveSecret(cs.kdf, pathSecret, "node")).privateKey &&
      EncryptPath(originalTree, c.tree, NextEpochContext(groupContext, TreeHashRoot(m.value.0, cs.hash).value), cs, c.pathSecrets)
        == Ok(c.updatePath.nodes)
  {
  }

  /** A successful committer tree is made of the initial update, the parent-hash pass and the signed leaf written on top. */
  lemma CommitterTreeParts(originalTree: RatchetTree, senderLeafIndex: LeafIndex, groupId: seq<byte>,
    signaturePrivateKey: seq<byte>, cs: CiphersuiteImpl, pathSecret: seq<byte>)
    requires senderLeafIndex < TreeLeafCount(originalTree)
    requires CommitterTree(originalTree, senderLeafIndex, groupId, signaturePrivateKey, cs, pathSecret).Ok?
    ensures var m := CommitterTree(originalTree, senderLeafIndex, groupId, signaturePrivateKey, cs, pathSecret).value;
      var leafIndex := LeafToNodeIndex(senderLeafIndex);
      var fdp := FilteredDirectPathAndCopathResolution(senderLeafIndex, originalTree);
      var init := ApplyInitialTreeUpdate(fdp, pathSecret, senderLeafIndex, originalTree, PathKeysOf(cs));
      var original := NodeAt(originalTree, leafIndex);
      NodesInTree(init.1, StepNodes(fdp)) && TreeRootLevel(init.1) == TreeRootLevel(originalTree) &&
      original.Some? && original.value.NodeLeaf? &&
      m.2 == init.0 && InsertParentHashes(fdp, init.1, cs.hash).Ok? &&
      ParentHashOf(cs.hash)(InsertParentHashes(fdp, init.1, cs.hash).value, leafIndex).Ok? &&
      m.1 == SignLeafNodeCommit(cs.signature,
        CommitLeafTbs(original.value.leaf, cs.hpke.deriveKeyPair(DeriveSecret(cs.kdf, pathSecret, "node")).publicKey,
          ParentHashOf(cs.hash)(InsertParentHashes(fdp, init.1, cs.hash).value, leafIndex).value, groupId, senderLeafIndex),
        signaturePrivateKey) &&
      m.0 == UpdateArray(InsertParentHashes(fdp, init.1, cs.hash).value, leafIndex, NodeLeaf(m.1))
  {
    CommitterFoldInTree(originalTree, senderLeafIndex, pathSecret, cs);
  }

  // ---------------------------------------------------------------------
  // The shape of the trees produced
  // ---------------------------------------------------------------------

  /** The public keys of the nodes whose path secrets are listed, in order. */
  function PathNodeKeys(cs: CiphersuiteImpl, ps: seq<PathSecret>): (r: seq<seq<byte>>)
    ensures |r| == |ps| && forall j :: 0 <= j < |ps| ==> r[j] == NodePublicKey(cs, ps[j].secret)
  {
    seq(|ps|, j requires 0 <= j < |ps| => NodePublicKey(cs, ps[j].secret))
  }

  /**
   * Node `xs[j]` of `t` is a parent node with key `keys[j]`, no unmerged
   * leaves, and the parent hash calculateParentHash computes for it on `t`
   * itself (section 7.9 of RFC 9420).
   */
  predicate ParentHashesHold(t: RatchetTree, xs: seq<NodeIndex>, keys: seq<seq<byte>>, h: Hash) {
    |keys| == |xs| &&
    forall j :: 0 <= j < |xs| ==>
      ParentHashOf(h)(t, xs[j]).Ok? &&
      NodeAt(t, xs[j]) == Some(NodeParent(ParentNode(keys[j], ParentHashOf(h)(t, xs[j]).value, [])))
  }

  /** The leaf slot of `t` holds the commit leaf `l`, whose parent hash is the one calculateParentHash computes for it on `t`. */
  predicate LeafHashHolds(t: RatchetTree, leafIndex: NodeIndex, l: LeafNode, h: Hash) {
    NodeAt(t, leafIndex) == Some(NodeLeaf(l)) && l.info.InfoCommit? && ParentHashOf(h)(t, leafIndex) == Ok(l.info.parentHash)
  }

  /**
   * A leaf written inside the subtrees of all nodes after a successful pass
   * over nested nodes keeps every node as the pass left it and every parent
   * hash the pass relied on, including the leaf's own.
   */
  lemma {:induction false} WriteLeafAfterPass(xs: seq<NodeIndex>, tree: RatchetTree,
    hash: (RatchetTree, NodeIndex) -> Result<seq<byte>>, template: (nat, Option<Node>) -> Option<ParentNode>, leaf: NodeIndex, n: Node)
    requires NodesInTree(tree, xs) && Nested(xs) && ReadsOutsideSubtree(hash) && InTree(tree, leaf)
    requires forall i :: 0 <= i < |xs| ==> InSubtree(leaf, xs[i]) && leaf != xs[i]
    requires HashFold(xs, 0, tree, hash, template).Ok?
    ensures var t := HashFold(xs, 0, tree, hash, template).value;
      var final := UpdateArray(t, leaf, n);
      (forall i :: 0 <= i < |xs| ==> HashedAt(final, tree, xs, i, hash, template)) &&
      hash(final, leaf) == hash(t, leaf) && TreeRootLevel(final) == TreeRootLevel(tree) &&
      forall y: NodeIndex :: y != leaf && y !in xs ==> NodeAt(final, y) == NodeAt(tree, y)
  {
    var t := HashFold(xs, 0, tree, hash, template).value;
    var final := UpdateArray(t, leaf, n);
    HashFoldShape(xs, 0, tree, hash, template);
    assert InTree(t, leaf) by {
      assert InTree(tree, leaf);
    }
    assert InSubtree(leaf, leaf);
    UpdateInsideKeeps(hash, t, leaf, n, leaf);
    UpdateKeepsRoot(t, leaf, n);
    forall i | 0 <= i < |xs|
      ensures HashedAt(final, tree, xs, i, hash, template)
    {
      assert HashedAt(t, tree, xs, i, hash, template);
      assert InTree(t, xs[i]) by {
        assert InTree(tree, xs[i]);
      }
      UpdateInsideKeeps(hash, t, leaf, n, xs[i]);
    }
    forall y: NodeIndex | y != leaf && y !in xs
      ensures NodeAt(final, y) == NodeAt(tree, y)
    {
      HashFoldElsewhere(xs, 0, tree, hash, template, y);
    }
  }

  /** On the tree of the initial update, the template of insertParentHashes gives each step's fresh node. */
  lemma InitialTemplate(fdp: seq<PathStep>, pathSecret: seq<byte>, senderLeafIndex: LeafIndex, tree: RatchetTree, cs: CiphersuiteImpl)
    requires DistinctSteps(fdp) && StepsInTree(tree, fdp)
    ensures var init := ApplyInitialTreeUpdate(fdp, pathSecret, senderLeafIndex, tree, PathKeysOf(cs));
      var keys := PathNodeKeys(cs, Reversed(init.0[..|init.0| - 1]));
      |keys| == |fdp| &&
      (forall i :: 0 <= i < |fdp| ==> ExistingParent(i, NodeAt(init.1, fdp[i].nodeIndex)) == Some(ParentNode(keys[i], [], []))) &&
      forall y: NodeIndex :: y !in StepNodes(fdp) ==> NodeAt(init.1, y) == NodeAt(tree, y)
  {
    InitialTemplateKeys(fdp, pathSecret, senderLeafIndex, tree, cs);
    InitialTemplateElsewhere(fdp, pathSecret, senderLeafIndex, tree, cs);
  }

  /** The step nodes of the initial update hold fresh parents with the keys of the path secrets, in step order. */
  lemma InitialTemplateKeys(fdp: seq<PathStep>, pathSecret: seq<byte>, senderLeafIndex: LeafIndex, tree: RatchetTree, cs: CiphersuiteImpl)
    requires DistinctSteps(fdp) && StepsInTree(tree, fdp)
    ensures var init := ApplyInitialTreeUpdate(fdp, pathSecret, senderLeafIndex, tree, PathKeysOf(cs));
      var keys := PathNodeKeys(cs, Reversed(init.0[..|init.0| - 1]));
      |keys| == |fdp| &&
      forall i :: 0 <= i < |fdp| ==> ExistingParent(i, NodeAt(init.1, fdp[i].nodeIndex)) == Some(ParentNode(keys[i], [], []))
  {
    var init := ApplyInitialTreeUpdate(fdp, pathSecret, senderLeafIndex, tree, PathKeysOf(cs));
    var n := |fdp|;
    var ps := Reversed(init.0[..n]);
    var keys := PathNodeKeys(cs, ps);
    InitialTreeUpdate(fdp, pathSecret, senderLeafIndex, tree, PathKeysOf(cs));
    forall i | 0 <= i < n
      ensures ExistingParent(i, NodeAt(init.1, fdp[i].nodeIndex)) == Some(ParentNode(keys[i], [], []))
    {
      assert ps[i] == init.0[n - 1 - i];
    }
  }

  /** The initial update leaves every slot off the path as it was. */
  lemma InitialTemplateElsewhere(fdp: seq<PathStep>, pathSecret: seq<byte>, senderLeafIndex: LeafIndex, tree: RatchetTree, cs: CiphersuiteImpl)
    requires DistinctSteps(fdp) && StepsInTree(tree, fdp)
    ensures var init := ApplyInitialTreeUpdate(fdp, pathSecret, senderLeafIndex, tree, PathKeysOf(cs));
      forall y: NodeIndex :: y !in StepNodes(fdp) ==> NodeAt(init.1, y) == NodeAt(tree, y)
  {
    var init := ApplyInitialTreeUpdate(fdp, pathSecret, senderLeafIndex, tree, PathKeysOf(cs));
    InitialTreeUpdate(fdp, pathSecret, senderLeafIndex, tree, PathKeysOf(cs));
    forall y: NodeIndex | y !in StepNodes(fdp)
      ensures NodeAt(init.1, y) == NodeAt(tree, y)
    {
      forall i | 0 <= i < |fdp|
        ensures fdp[i].nodeIndex != y
      {
        assert StepNodes(fdp)[i] == fdp[i].nodeIndex;
      }
    }
  }

  /** Nested steps are distinct. */
  lemma NestedDistinct(fdp: seq<PathStep>)
    requires Nested(StepNodes(fdp))
    ensures DistinctSteps(fdp)
  {
    forall i, j | 0 <= i < j < |fdp|
      ensures fdp[i].nodeIndex != fdp[j].nodeIndex
    {
      assert Level(StepNodes(fdp)[i]) < Level(StepNodes(fdp)[j]);
    }
  }

  /** When the template gives each node's key with empty fields, a pass that hashed every node leaves the parent hashes holding. */
  lemma HashedParentsHold(t: RatchetTree, tree: RatchetTree, xs: seq<NodeIndex>, keys: seq<seq<byte>>, h: Hash,
    template: (nat, Option<Node>) -> Option<ParentNode>)
    requires |keys| == |xs|
    requires forall i :: 0 <= i < |xs| ==> HashedAt(t, tree, xs, i, ParentHashOf(h), template)
    requires forall i :: 0 <= i < |xs| ==> template(i, NodeAt(tree, xs[i])) == Some(ParentNode(keys[i], [], []))
    ensures ParentHashesHold(t, xs, keys, h)
  {
    forall j | 0 <= j < |xs|
      ensures ParentHashOf(h)(t, xs[j]).Ok? &&
        NodeAt(t, xs[j]) == Some(NodeParent(ParentNode(keys[j], ParentHashOf(h)(t, xs[j]).value, [])))
    {
      assert HashedAt(t, tree, xs, j, ParentHashOf(h), template);
    }
  }

  /** The committer's new leaf: the fresh HPKE key, and the signature key, credential, capabilities and extensions of the old leaf. */
  predicate RefreshedLeaf(l: LeafNode, original: LeafNode, hpkePublicKey: seq<byte>) {
    l.data == LeafNodeData(hpkePublicKey, original.data.signaturePublicKey, original.data.credential, original.data.capabilities) &&
    l.extensions == original.extensions
  }

  /**
   * The committer's tree after createUpdatePath: the filtered direct path
   * holds the keys derived from the path secrets, with the parent hashes of
   * the tree itself and no unmerged leaves; the sender's slot holds the new
   * commit leaf, refreshed from the old one, whose parent hash is the one
   * calculateParentHash computes for it; every other slot and the root are
   * those of the original tree.
   */
  lemma CommitterTreeShape(originalTree: RatchetTree, senderLeafIndex: LeafIndex, groupId: seq<byte>,
    signaturePrivateKey: seq<byte>, cs: CiphersuiteImpl, pathSecret: seq<byte>)
    requires senderLeafIndex < TreeLeafCount(originalTree)
    requires CommitterTree(originalTree, senderLeafIndex, groupId, signaturePrivateKey, cs, pathSecret).Ok?
    ensures var m := CommitterTree(originalTree, senderLeafIndex, groupId, signaturePrivateKey, cs, pathSecret).value;
      var leafIndex := LeafToNodeIndex(senderLeafIndex);
      var xs := FilteredDirectPath(senderLeafIndex, originalTree);
      var original := NodeAt(originalTree, leafIndex);
      ParentHashesHold(m.0, xs, PathNodeKeys(cs, Reversed(m.2[..|m.2| - 1])), cs.hash) &&
      LeafHashHolds(m.0, leafIndex, m.1, cs.hash) &&
      original.Some? && original.value.NodeLeaf? && RefreshedLeaf(m.1, original.value.leaf, NodePublicKey(cs, pathSecret)) &&
      TreeRootLevel(m.0) == TreeRootLevel(originalTree) && AgreeOutside(m.0, originalTree, leafIndex, xs)
  {
    var fdp := FilteredDirectPathAndCopathResolution(senderLeafIndex, originalTree);
    var xs := StepNodes(fdp);
    var leafIndex := LeafToNodeIndex(senderLeafIndex);
    var init := ApplyInitialTreeUpdate(fdp, pathSecret, senderLeafIndex, originalTree, PathKeysOf(cs));
    var m := CommitterTree(originalTree, senderLeafIndex, groupId, signaturePrivateKey, cs, pathSecret).value;
    CommitterTreeParts(originalTree, senderLeafIndex, groupId, signaturePrivateKey, cs, pathSecret);
    FilteredPathNested(senderLeafIndex, originalTree);
    LeafInTree(originalTree, senderLeafIndex);
    NestedDistinct(fdp);
    InitialTemplate(fdp, pathSecret, senderLeafIndex, originalTree, cs);
    ParentHashOfLocal(cs.hash);
    assert InTree(init.1, leafIndex) by {
      assert InTree(originalTree, leafIndex);
    }
    WriteLeafAfterPass(xs, init.1, ParentHashOf(cs.hash), ExistingParent, leafIndex, NodeLeaf(m.1));
    HashedParentsHold(m.0, init.1, xs, PathNodeKeys(cs, Reversed(m.2[..|m.2| - 1])), cs.hash, ExistingParent);
  }

  /**
   * Two passes over nested nodes, on trees that differ only at the nodes and
   * at one slot `leaf` inside their subtrees, where the second tree holds
   * `n`, with templates that agree: when the first succeeds so does the
   * second, and its result is the first's with `n` written at `leaf`, slot
   * by slot, with the same root and the same hash at the leaf.
   */
  lemma PassesAgree(xs: seq<NodeIndex>, t1: RatchetTree, t2: RatchetTree, hash: (RatchetTree, NodeIndex) -> Result<seq<byte>>,
    tm1: (nat, Option<Node>) -> Option<ParentNode>, tm2: (nat, Option<Node>) -> Option<ParentNode>, leaf: NodeIndex, n: Node)
    requires NodesInTree(t1, xs) && NodesInTree(t2, xs) && Nested(xs) && ReadsOutsideSubtree(hash)
    requires TreeRootLevel(t1) == TreeRootLevel(t2) && InTree(t1, leaf) && NodeAt(t2, leaf) == Some(n)
    requires forall i :: 0 <= i < |xs| ==> InSubtree(leaf, xs[i]) && leaf != xs[i]
    requires forall i :: 0 <= i < |xs| ==> tm1(i, NodeAt(t1, xs[i])) == tm2(i, NodeAt(t2, xs[i]))
    requires AgreeOutside(t1, t2, leaf, xs)
    requires HashFold(xs, 0, t1, hash, tm1).Ok?
    ensures var final := UpdateArray(HashFold(xs, 0, t1, hash, tm1).value, leaf, n);
      var r2 := HashFold(xs, 0, t2, hash, tm2);
      r2.Ok? && TreeRootLevel(r2.value) == TreeRootLevel(final) && hash(r2.value, leaf) == hash(final, leaf) &&
      forall y: NodeIndex :: NodeAt(r2.value, y) == NodeAt(final, y)
  {
    HashFoldSimulates(xs, 0, t1, t2, hash, tm1, tm2, leaf);
    var r1 := HashFold(xs, 0, t1, hash, tm1).value;
    var r2 := HashFold(xs, 0, t2, hash, tm2).value;
    var final := UpdateArray(r1, leaf, n);
    assert xs[..0] == [];
    HashFoldElsewhere(xs, 0, t2, hash, tm2, leaf);
    assert InTree(r1, leaf) by {
      assert InTree(t1, leaf);
    }
    UpdateKeepsRoot(r1, leaf, n);
    assert InSubtree(leaf, leaf);
    UpdateInsideKeeps(hash, r1, leaf, n, leaf);
    assert AgreeOutsideSubtree(r1, r2, leaf);
  }

  /**
   * applyUpdatePath accepts a path whose leaf is fresh and a commit leaf,
   * whose keys are new to the tree, with one node per step, when the pass
   * over the copy succeeds and the path's leaf carries the parent hash
   * computed on its result; it returns that result.
   */
  lemma ApplyAccepts(tree: RatchetTree, senderLeafIndex: LeafIndex, path: UpdatePath, h: Hash, t: RatchetTree)
    requires senderLeafIndex < TreeLeafCount(tree) && path.leafNode.info.InfoCommit?
    requires var leaf := NodeAt(tree, LeafToNodeIndex(senderLeafIndex));
      leaf.Some? && leaf.value.NodeLeaf? && leaf.value.leaf.data.hpkePublicKey != path.leafNode.data.hpkePublicKey
    requires !PathKeyInTree(tree, path.nodes) && |path.nodes| == |FilteredDirectPath(senderLeafIndex, tree)|
    requires NodesInTree(UpdateArray(tree, LeafToNodeIndex(senderLeafIndex), NodeLeaf(path.leafNode)), FilteredDirectPath(senderLeafIndex, tree))
    requires HashFold(FilteredDirectPath(senderLeafIndex, tree), 0, UpdateArray(tree, LeafToNodeIndex(senderLeafIndex), NodeLeaf(path.leafNode)),
      ParentHashOf(h), PathTemplate(path.nodes)) == Ok(t)
    requires ParentHashOf(h)(t, LeafToNodeIndex(senderLeafIndex)) == Ok(path.leafNode.info.parentHash)
    ensures ApplyUpdatePathSpec(tree, senderLeafIndex, path, h, false) == Ok(t)
  {
  }

  /**
   * A tree `t1` that differs from `tree` only on the filtered direct path,
   * where the existing parents carry `keys`: on `tree` with a leaf `l`
   * written at the sender's slot, the pass of applyUpdatePath over path
   * nodes carrying those keys gives, slot by slot, the pass of
   * insertParentHashes over `t1` with `l` written at the sender's slot.
   */
  lemma PathPassAgree(tree: RatchetTree, senderLeafIndex: LeafIndex, t1: RatchetTree, keys: seq<seq<byte>>,
    nodes: seq<UpdatePathNode>, l: LeafNode, h: Hash)
    requires senderLeafIndex < TreeLeafCount(tree)
    requires var xs := FilteredDirectPath(senderLeafIndex, tree);
      NodesInTree(t1, xs) && TreeRootLevel(t1) == TreeRootLevel(tree) && |keys| == |xs| &&
      (forall i :: 0 <= i < |xs| ==> ExistingParent(i, NodeAt(t1, xs[i])) == Some(ParentNode(keys[i], [], []))) &&
      (forall y: NodeIndex :: y !in xs ==> NodeAt(t1, y) == NodeAt(tree, y)) &&
      HashFold(xs, 0, t1, ParentHashOf(h), ExistingParent).Ok?
    requires |nodes| == |keys| && forall j :: 0 <= j < |nodes| ==> nodes[j].hpkePublicKey == keys[j]
    ensures var xs := FilteredDirectPath(senderLeafIndex, tree);
      var leafIndex := LeafToNodeIndex(senderLeafIndex);
      var final := UpdateArray(HashFold(xs, 0, t1, ParentHashOf(h), ExistingParent).value, leafIndex, NodeLeaf(l));
      var copy := UpdateArray(tree, leafIndex, NodeLeaf(l));
      NodesInTree(copy, xs) &&
      var r := HashFold(xs, 0, copy, ParentHashOf(h), PathTemplate(nodes));
      r.Ok? && TreeRootLevel(r.value) == TreeRootLevel(final) && ParentHashOf(h)(r.value, leafIndex) == ParentHashOf(h)(final, leafIndex) &&
      forall y: NodeIndex :: NodeAt(r.value, y) == NodeAt(final, y)
  {
    var leafIndex := LeafToNodeIndex(senderLeafIndex);
    var xs := FilteredDirectPath(senderLeafIndex, tree);
    var copy := UpdateArray(tree, leafIndex, NodeLeaf(l));
    FilteredPathNested(senderLeafIndex, tree);
    LeafInTree(tree, senderLeafIndex);
    ParentHashOfLocal(h);
    UpdateKeepsRoot(tree, leafIndex, NodeLeaf(l));
    assert NodesInTree(copy, xs) by {
      assert NodesInTree(tree, xs);
    }
    assert InTree(t1, leafIndex) by {
      assert InTree(tree, leafIndex);
    }
    PassesAgree(xs, t1, copy, ParentHashOf(h), ExistingParent, PathTemplate(nodes), leafIndex, NodeLeaf(l));
  }

  /** PathPassAgree for the tree of the initial update, whose parents carry the keys of its path secrets. */
  lemma InitialPassAgree(senderLeafIndex: LeafIndex, originalTree: RatchetTree, pathSecret: seq<byte>, cs: CiphersuiteImpl,
    nodes: seq<UpdatePathNode>, l: LeafNode)
    requires senderLeafIndex < TreeLeafCount(originalTree)
    requires var fdp := FilteredDirectPathAndCopathResolution(senderLeafIndex, originalTree);
      var init := ApplyInitialTreeUpdate(fdp, pathSecret, senderLeafIndex, originalTree, PathKeysOf(cs));
      var keys := PathNodeKeys(cs, Reversed(init.0[..|init.0| - 1]));
      NodesInTree(init.1, StepNodes(fdp)) && InsertParentHashes(fdp, init.1, cs.hash).Ok? &&
      |nodes| == |keys| && forall j :: 0 <= j < |nodes| ==> nodes[j].hpkePublicKey == keys[j]
    ensures var fdp := FilteredDirectPathAndCopathResolution(senderLeafIndex, originalTree);
      var init := ApplyInitialTreeUpdate(fdp, pathSecret, senderLeafIndex, originalTree, PathKeysOf(cs));
      var leafIndex := LeafToNodeIndex(senderLeafIndex);
      var final := UpdateArray(InsertParentHashes(fdp, init.1, cs.hash).value, leafIndex, NodeLeaf(l));
      var xs := StepNodes(fdp);
      var copy := UpdateArray(originalTree, leafIndex, NodeLeaf(l));
      NodesInTree(copy, xs) &&
      var r := HashFold(xs, 0, copy, ParentHashOf(cs.hash), PathTemplate(nodes));
      r.Ok? && TreeRootLevel(r.value) == TreeRootLevel(final) && ParentHashOf(cs.hash)(r.value, leafIndex) == ParentHashOf(cs.hash)(final, leafIndex) &&
      forall y: NodeIndex :: NodeAt(r.value, y) == NodeAt(final, y)
  {
    var fdp := FilteredDirectPathAndCopathResolution(senderLeafIndex, originalTree);
    var init := ApplyInitialTreeUpdate(fdp, pathSecret, senderLeafIndex, originalTree, PathKeysOf(cs));
    FilteredPathNested(senderLeafIndex, originalTree);
    NestedDistinct(fdp);
    InitialTemplate(fdp, pathSecret, senderLeafIndex, originalTree, cs);
    CommitterFoldInTree(originalTree, senderLeafIndex, pathSecret, cs);
    PathPassAgree(originalTree, senderLeafIndex, init.1, PathNodeKeys(cs, Reversed(init.0[..|init.0| - 1])), nodes, l, cs.hash);
  }

  /**
   * On the original tree with the committer's new leaf written, the pass of
   * applyUpdatePath over path nodes carrying the keys of the committer's
   * tree gives the committer's tree, slot by slot, and the leaf's parent
   * hash is the one in the leaf.
   */
  lemma CommitterPassAgree(originalTree: RatchetTree, senderLeafIndex: LeafIndex, groupId: seq<byte>,
    signaturePrivateKey: seq<byte>, cs: CiphersuiteImpl, pathSecret: seq<byte>, nodes: seq<UpdatePathNode>)
    requires senderLeafIndex < TreeLeafCount(originalTree)
    requires CommitterTree(originalTree, senderLeafIndex, groupId, signaturePrivateKey, cs, pathSecret).Ok?
    requires var m := CommitterTree(originalTree, senderLeafIndex, groupId, signaturePrivateKey, cs, pathSecret).value;
      var keys := PathNodeKeys(cs, Reversed(m.2[..|m.2| - 1]));
      |nodes| == |keys| && forall j :: 0 <= j < |nodes| ==> nodes[j].hpkePublicKey == keys[j]
    ensures var m := CommitterTree(originalTree, senderLeafIndex, groupId, signaturePrivateKey, cs, pathSecret).value;
      var leafIndex := LeafToNodeIndex(senderLeafIndex);
      var xs := FilteredDirectPath(senderLeafIndex, originalTree);
      var copy := UpdateArray(originalTree, leafIndex, NodeLeaf(m.1));
      NodesInTree(copy, xs) &&
      var r := HashFold(xs, 0, copy, ParentHashOf(cs.hash), PathTemplate(nodes));
      r.Ok? && ParentHashOf(cs.hash)(r.value, leafIndex) == Ok(m.1.info.parentHash) &&
      TreeRootLevel(r.value) == TreeRootLevel(m.0) && forall y: NodeIndex :: NodeAt(r.value, y) == NodeAt(m.0, y)
  {
    var m := CommitterTree(originalTree, senderLeafIndex, groupId, signaturePrivateKey, cs, pathSecret).value;
    CommitterTreeParts(originalTree, senderLeafIndex, groupId, signaturePrivateKey, cs, pathSecret);
    CommitterTreeShape(originalTree, senderLeafIndex, groupId, signaturePrivateKey, cs, pathSecret);
    InitialPassAgree(senderLeafIndex, originalTree, pathSecret, cs, nodes, m.1);
  }

  /**
   * applyUpdatePath on the original tree, for a member who is not the
   * committer, accepts the path createUpdatePath sends when the new leaf key
   * differs from the old one and no path key is already a parent's key, and
   * gives the committer's own tree, slot by slot.
   */
  lemma CreateThenApply(originalTree: RatchetTree, senderLeafIndex: LeafIndex, groupContext: GroupContext,
    signaturePrivateKey: seq<byte>, cs: CiphersuiteImpl, pathSecret: seq<byte>)
    requires senderLeafIndex < TreeLeafCount(originalTree)
    requires CreateUpdatePath(originalTree, senderLeafIndex, groupContext, signaturePrivateKey, cs, pathSecret).Ok?
    requires var original := NodeAt(originalTree, LeafToNodeIndex(senderLeafIndex));
      original.Some? && original.value.NodeLeaf? ==> original.value.leaf.data.hpkePublicKey != NodePublicKey(cs, pathSecret)
    requires !PathKeyInTree(originalTree, CreateUpdatePath(originalTree, senderLeafIndex, groupContext, signaturePrivateKey, cs, pathSecret).value.updatePath.nodes)
    ensures var c := CreateUpdatePath(originalTree, senderLeafIndex, groupContext, signaturePrivateKey, cs, pathSecret).value;
      c.updatePath.leafNode.info.InfoCommit? &&
      var r := ApplyUpdatePathSpec(originalTree, senderLeafIndex, c.updatePath, cs.hash, false);
      r.Ok? && TreeRootLevel(r.value) == TreeRootLevel(c.tree) && forall y: NodeIndex :: NodeAt(r.value, y) == NodeAt(c.tree, y)
  {
    var c := CreateUpdatePath(originalTree, senderLeafIndex, groupContext, signaturePrivateKey, cs, pathSecret).value;
    var m := CommitterTree(originalTree, senderLeafIndex, groupContext.groupId, signaturePrivateKey, cs, pathSecret).value;
    var leafIndex := LeafToNodeIndex(senderLeafIndex);
    var xs := FilteredDirectPath(senderLeafIndex, originalTree);
    var copy := UpdateArray(originalTree, leafIndex, NodeLeaf(c.updatePath.leafNode));
    CreateUpdatePathParts(originalTree, senderLeafIndex, groupContext, signaturePrivateKey, cs, pathSecret);
    CreatedTreeShape(originalTree, senderLeafIndex, groupContext, signaturePrivateKey, cs, pathSecret);
    CreatedPathKeys(originalTree, senderLeafIndex, groupContext, signaturePrivateKey, cs, pathSecret);
    CommitterPassAgree(originalTree, senderLeafIndex, groupContext.groupId, signaturePrivateKey, cs, pathSecret, c.updatePath.nodes);
    var t := HashFold(xs, 0, copy, ParentHashOf(cs.hash), PathTemplate(c.updatePath.nodes)).value;
    ApplyAccepts(originalTree, senderLeafIndex, c.updatePath, cs.hash, t);
  }

  /** Each encrypted path node carries the key its node holds in the tree it was encrypted from. */
  lemma EncryptedKeysMatch(originalTree: RatchetTree, t: RatchetTree, ctx: GroupContext, cs: CiphersuiteImpl,
    ps: seq<PathSecret>, nodes: seq<UpdatePathNode>, xs: seq<NodeIndex>, keys: seq<seq<byte>>)
    requires EncryptPath(originalTree, t, ctx, cs, ps) == Ok(nodes)
    requires ParentHashesHold(t, xs, keys, cs.hash)
    requires |ps| == |xs| && forall j :: 0 <= j < |xs| ==> ps[j].nodeIndex == xs[j]
    ensures |nodes| == |xs| && forall j :: 0 <= j < |xs| ==> nodes[j].hpkePublicKey == keys[j]
  {
    forall j | 0 <= j < |xs|
      ensures nodes[j].hpkePublicKey == keys[j]
    {
      assert Ok(nodes[j]) == EncryptSecretsForPath(originalTree, t, ctx, cs, ps[j]);
    }
  }

  /**
   * The committer's tree createUpdatePath returns has the shape of
   * CommitterTreeShape, with the keys derived from the path secrets it
   * returns, and it has a tree hash.
   */
  lemma CreatedTreeShape(originalTree: RatchetTree, senderLeafIndex: LeafIndex, groupContext: GroupContext,
    signaturePrivateKey: seq<byte>, cs: CiphersuiteImpl, pathSecret: seq<byte>)
    requires senderLeafIndex < TreeLeafCount(originalTree)
    requires CreateUpdatePath(originalTree, senderLeafIndex, groupContext, signaturePrivateKey, cs, pathSecret).Ok?
    ensures var c := CreateUpdatePath(originalTree, senderLeafIndex, groupContext, signaturePrivateKey, cs, pathSecret).value;
      var leafIndex := LeafToNodeIndex(senderLeafIndex);
      var xs := FilteredDirectPath(senderLeafIndex, originalTree);
      var original := NodeAt(originalTree, leafIndex);
      ParentHashesHold(c.tree, xs, PathNodeKeys(cs, c.pathSecrets), cs.hash) &&
      LeafHashHolds(c.tree, leafIndex, c.updatePath.leafNode, cs.hash) &&
      original.Some? && original.value.NodeLeaf? &&
      RefreshedLeaf(c.updatePath.leafNode, original.value.leaf, NodePublicKey(cs, pathSecret)) &&
      TreeRootLevel(c.tree) == TreeRootLevel(originalTree) && AgreeOutside(c.tree, originalTree, leafIndex, xs) &&
      TreeHashRoot(c.tree, cs.hash).Ok?
  {
    CreateUpdatePathParts(originalTree, senderLeafIndex, groupContext, signaturePrivateKey, cs, pathSecret);
    CommitterTreeShape(originalTree, senderLeafIndex, groupContext.groupId, signaturePrivateKey, cs, pathSecret);
  }

  /** Each node of the update path createUpdatePath returns carries the key its node holds in the committer's tree. */
  lemma CreatedPathKeys(originalTree: RatchetTree, senderLeafIndex: LeafIndex, groupContext: GroupContext,
    signaturePrivateKey: seq<byte>, cs: CiphersuiteImpl, pathSecret: seq<byte>)
    requires senderLeafIndex < TreeLeafCount(originalTree)
    requires CreateUpdatePath(originalTree, senderLeafIndex, groupContext, signaturePrivateKey, cs, pathSecret).Ok?
    ensures var c := CreateUpdatePath(originalTree, senderLeafIndex, groupContext, signaturePrivateKey, cs, pathSecret).value;
      var xs := FilteredDirectPath(senderLeafIndex, originalTree);
      |c.updatePath.nodes| == |xs| &&
      forall j :: 0 <= j < |xs| ==> c.updatePath.nodes[j].hpkePublicKey == PathNodeKeys(cs, c.pathSecrets)[j]
  {
    var c := CreateUpdatePath(originalTree, senderLeafIndex, groupContext, signaturePrivateKey, cs, pathSecret).value;
    var xs := FilteredDirectPath(senderLeafIndex, originalTree);
    CreateUpdatePathParts(originalTree, senderLeafIndex, groupContext, signaturePrivateKey, cs, pathSecret);
    CreatedTreeShape(originalTree, senderLeafIndex, groupContext, signaturePrivateKey, cs, pathSecret);
    CreatedPathSecrets(originalTree, senderLeafIndex, groupContext, signaturePrivateKey, cs, pathSecret);
    EncryptedKeysMatch(originalTree, c.tree, NextEpochContext(groupContext, TreeHashRoot(c.tree, cs.hash).value), cs,
      c.pathSecrets, c.updatePath.nodes, xs, PathNodeKeys(cs, c.pathSecrets));
  }

  /** A commit leaf built by CommitLeafTbs and signed verifies under the old leaf's signature key, for a matching signing key. */
  lemma CommitLeafVerifies(s: SignatureScheme, original: LeafNode, hpkePublicKey: seq<byte>, parentHash: seq<byte>,
    groupId: seq<byte>, senderLeafIndex: LeafIndex, signaturePrivateKey: seq<byte>)
    requires SignatureConsistent(s, original.data.signaturePublicKey, signaturePrivateKey)
    ensures VerifyLeafNodeSignature(s, SignLeafNodeCommit(s, CommitLeafTbs(original, hpkePublicKey, parentHash, groupId, senderLeafIndex), signaturePrivateKey),
      groupId, senderLeafIndex % 0x1_0000_0000)
  {
    SignedCommitLeafVerifies(s, CommitLeafTbs(original, hpkePublicKey, parentHash, groupId, senderLeafIndex), signaturePrivateKey);
  }

  /**
   * The leaf the committer's tree gets verifies under the old leaf's
   * signature key, in the group and at the sender's leaf index, for a
   * committer whose signing key matches that key.
   */
  lemma CommitterLeafVerifies(originalTree: RatchetTree, senderLeafIndex: LeafIndex, groupId: seq<byte>,
    signaturePrivateKey: seq<byte>, cs: CiphersuiteImpl, pathSecret: seq<byte>)
    requires senderLeafIndex < TreeLeafCount(originalTree)
    requires CommitterTree(originalTree, senderLeafIndex, groupId, signaturePrivateKey, cs, pathSecret).Ok?
    requires var original := NodeAt(originalTree, LeafToNodeIndex(senderLeafIndex));
      original.Some? && original.value.NodeLeaf? &&
      SignatureConsistent(cs.signature, original.value.leaf.data.signaturePublicKey, signaturePrivateKey)
    ensures var m := CommitterTree(originalTree, senderLeafIndex, groupId, signaturePrivateKey, cs, pathSecret).value;
      VerifyLeafNodeSignature(cs.signature, m.1, groupId, senderLeafIndex % 0x1_0000_0000)
  {
    CommitterTreeParts(originalTree, senderLeafIndex, groupId, signaturePrivateKey, cs, pathSecret);
    var fdp := FilteredDirectPathAndCopathResolution(senderLeafIndex, originalTree);
    var init := ApplyInitialTreeUpdate(fdp, pathSecret, senderLeafIndex, originalTree, PathKeysOf(cs));
    var twh := InsertParentHashes(fdp, init.1, cs.hash).value;
    CommitLeafVerifies(cs.signature, NodeAt(originalTree, LeafToNodeIndex(senderLeafIndex)).value.leaf, NodePublicKey(cs, pathSecret),
      ParentHashOf(cs.hash)(twh, LeafToNodeIndex(senderLeafIndex)).value, groupId, senderLeafIndex, signaturePrivateKey);
  }

  /** The leaf createUpdatePath returns verifies as CommitterLeafVerifies says, in the group of the given context. */
  lemma CreatedLeafVerifies(originalTree: RatchetTree, senderLeafIndex: LeafIndex, groupContext: GroupContext,
    signaturePrivateKey: seq<byte>, cs: CiphersuiteImpl, pathSecret: seq<byte>)
    requires senderLeafIndex < TreeLeafCount(originalTree)
    requires CreateUpdatePath(originalTree, senderLeafIndex, groupContext, signaturePrivateKey, cs, pathSecret).Ok?
    requires var original := NodeAt(originalTree, LeafToNodeIndex(senderLeafIndex));
      original.Some? && original.value.NodeLeaf? &&
      SignatureConsistent(cs.signature, original.value.leaf.data.signaturePublicKey, signaturePrivateKey)
    ensures var c := CreateUpdatePath(originalTree, senderLeafIndex, groupContext, signaturePrivateKey, cs, pathSecret).value;
      VerifyLeafNodeSignature(cs.signature, c.updatePath.leafNode, groupContext.groupId, senderLeafIndex % 0x1_0000_0000)
  {
    CreateUpdatePathParts(originalTree, senderLeafIndex, groupContext, signaturePrivateKey, cs, pathSecret);
    CommitterLeafVerifies(originalTree, senderLeafIndex, groupContext.groupId, signaturePrivateKey, cs, pathSecret);
  }

  /**
   * The `k`-th ciphertext of the `j`-th path node createUpdatePath sends is
   * the path secret of step `j` sealed to the `k`-th node of that step's
   * copath resolution in the original tree, whatever that node's holder.
   */
  lemma CreatedCiphertextSealedTo(originalTree: RatchetTree, senderLeafIndex: LeafIndex, groupContext: GroupContext,
    signaturePrivateKey: seq<byte>, cs: CiphersuiteImpl, pathSecret: seq<byte>, j: nat, k: nat)
    requires senderLeafIndex < TreeLeafCount(originalTree)
    requires CreateUpdatePath(originalTree, senderLeafIndex, groupContext, signaturePrivateKey, cs, pathSecret).Ok?
    requires var fdp := FilteredDirectPathAndCopathResolution(senderLeafIndex, originalTree);
      j < |fdp| && k < |fdp[j].resolution|
    ensures var c := CreateUpdatePath(originalTree, senderLeafIndex, groupContext, signaturePrivateKey, cs, pathSecret).value;
      var fdp := FilteredDirectPathAndCopathResolution(senderLeafIndex, originalTree);
      TreeHashRoot(c.tree, cs.hash).Ok? && |c.updatePath.nodes| == |fdp| && |c.pathSecrets| == |fdp| &&
      |c.updatePath.nodes[j].encryptedPathSecret| == |fdp[j].resolution| &&
      var context := EncodeGroupContext(NextEpochContext(groupContext, TreeHashRoot(c.tree, cs.hash).value));
      Ok(c.updatePath.nodes[j].encryptedPathSecret[k]) == EncryptToNode(originalTree, context, cs.hpke, c.pathSecrets[j].secret, fdp[j].resolution[k])
  {
    var c := CreateUpdatePath(originalTree, senderLeafIndex, groupContext, signaturePrivateKey, cs, pathSecret).value;
    var ctx := NextEpochContext(groupContext, TreeHashRoot(c.tree, cs.hash).value);
    CreateUpdatePathParts(originalTree, senderLeafIndex, groupContext, signaturePrivateKey, cs, pathSecret);
    CreatedPathSecrets(originalTree, senderLeafIndex, groupContext, signaturePrivateKey, cs, pathSecret);
    assert Ok(c.updatePath.nodes[j]) == EncryptSecretsForPath(originalTree, c.tree, ctx, cs, c.pathSecrets[j]);
  }

  /**
   * A member holding the private key for the `k`-th node of the copath
   * resolution at step `j` of the filtered direct path decrypts the `k`-th
   * ciphertext of the `j`-th path node to the `j`-th path secret, under the
   * next epoch's group context with the new tree hash.
   */
  lemma CreatedPathDecrypts(originalTree: RatchetTree, senderLeafIndex: LeafIndex, groupContext: GroupContext,
    signaturePrivateKey: seq<byte>, cs: CiphersuiteImpl, pathSecret: seq<byte>, j: nat, k: nat, privateKey: seq<byte>)
    requires senderLeafIndex < TreeLeafCount(originalTree)
    requires CreateUpdatePath(originalTree, senderLeafIndex, groupContext, signaturePrivateKey, cs, pathSecret).Ok?
    requires var fdp := FilteredDirectPathAndCopathResolution(senderLeafIndex, originalTree);
      j < |fdp| && k < |fdp[j].resolution| && NodeAt(originalTree, fdp[j].resolution[k]).Some? &&
      HpkeConsistent(cs.hpke, GetHpkePublicKey(NodeAt(originalTree, fdp[j].resolution[k]).value), privateKey)
    ensures var c := CreateUpdatePath(originalTree, senderLeafIndex, groupContext, signaturePrivateKey, cs, pathSecret).value;
      var fdp := FilteredDirectPathAndCopathResolution(senderLeafIndex, originalTree);
      TreeHashRoot(c.tree, cs.hash).Ok? && |c.updatePath.nodes| == |fdp| && |c.pathSecrets| == |fdp| &&
      |c.updatePath.nodes[j].encryptedPathSecret| == |fdp[j].resolution| &&
      var context := EncodeGroupContext(NextEpochContext(groupContext, TreeHashRoot(c.tree, cs.hash).value));
      DecryptWithLabel(cs.hpke, privateKey, "UpdatePathNode", context,
        c.updatePath.nodes[j].encryptedPathSecret[k].kemOutput,
        c.updatePath.nodes[j].encryptedPathSecret[k].ciphertext) == Some(c.pathSecrets[j].secret)
  {
    var c := CreateUpdatePath(originalTree, senderLeafIndex, groupContext, signaturePrivateKey, cs, pathSecret).value;
    var ctx := NextEpochContext(groupContext, TreeHashRoot(c.tree, cs.hash).value);
    CreateUpdatePathParts(originalTree, senderLeafIndex, groupContext, signaturePrivateKey, cs, pathSecret);
    CreatedPathSecrets(originalTree, senderLeafIndex, groupContext, signaturePrivateKey, cs, pathSecret);
    assert Ok(c.updatePath.nodes[j]) == EncryptSecretsForPath(originalTree, c.tree, ctx, cs, c.pathSecrets[j]);
    EncryptedPathNodeDecrypts(originalTree, c.tree, ctx, cs, c.pathSecrets[j], k, privateKey);
  }
}
