/**
 * Parent hashes of src/parentHash.ts (section 7.9 of RFC 9420): the hash a
 * node's first non-blank ancestor commits to, and the check that every
 * non-blank parent node is covered by exactly one chain of valid parent
 * hashes starting at a leaf.
 */
module ParentHash {
  import opened Wrappers
  import opened Bytes
  import opened TlsDecoder
  import opened VariableLength
  import opened Crypto
  import opened LeafNode
  import opened ParentNode
  import opened TreeMath
  import opened RatchetTree
  import opened TreeHash

  datatype ParentHashInput = ParentHashInput(encryptionKey: seq<byte>, parentHash: seq<byte>, originalSiblingTreeHash: seq<byte>)

  /** Three var-len fields: encryption key, parent hash, original sibling tree hash. */
  function EncodeParentHashInput(i: ParentHashInput): seq<byte> {
    EncodeVarLenData(i.encryptionKey) + EncodeVarLenData(i.parentHash) + EncodeVarLenData(i.originalSiblingTreeHash)
  }

  const DecodeParentHashInput: Decoder<ParentHashInput> :=
    MapDecoders3(DecodeVarLenData, DecodeVarLenData, DecodeVarLenData,
      (k: seq<byte>, p: seq<byte>, s: seq<byte>) => ParentHashInput(k, p, s))

  lemma ParentHashInputRoundTrip(i: ParentHashInput)
    ensures Decodes(DecodeParentHashInput, EncodeParentHashInput(i), i)
  {
    VarLenDataRoundTrip(i.encryptionKey);
    VarLenDataRoundTrip(i.parentHash);
    VarLenDataRoundTrip(i.originalSiblingTreeHash);
    MapDecoders3Decodes(DecodeVarLenData, DecodeVarLenData, DecodeVarLenData,
      (k: seq<byte>, p: seq<byte>, s: seq<byte>) => ParentHashInput(k, p, s),
      EncodeVarLenData(i.encryptionKey), EncodeVarLenData(i.parentHash), EncodeVarLenData(i.originalSiblingTreeHash),
      i.encryptionKey, i.parentHash, i.originalSiblingTreeHash);
  }

  /**
   * calculateParentHash: the parent hash that the first non-blank ancestor
   * `p` of `x` gives `x`, paired with `p`. The root has none; a blank root
   * gives the empty hash. The sibling hashed is the child of `p` away from
   * `x`, in the tree with `p`'s unmerged leaves removed.
   */
  function CalculateParentHash(tree: RatchetTree, x: NodeIndex, h: Hash): (r: Result<(seq<byte>, Option<NodeIndex>)>)
    requires InTree(tree, x)
    ensures x == TreeRoot(tree) ==> r == Ok(([], None))
    ensures x != TreeRoot(tree) && r.Ok? ==> r.value.1 == Some(FindFirstNonBlankAncestor(tree, x))
    ensures x != TreeRoot(tree) && FindFirstNonBlankAncestor(tree, x) == TreeRoot(tree) && NodeAt(tree, TreeRoot(tree)).None? ==>
      r == Ok(([], Some(TreeRoot(tree))))
    ensures (x != TreeRoot(tree) && NodeAt(tree, FindFirstNonBlankAncestor(tree, x)).Some? &&
      NodeAt(tree, FindFirstNonBlankAncestor(tree, x)).value.NodeLeaf?) ==> r == Err(InternalError)
    ensures r.Err? ==> r.error == InternalError
  {
    if x == TreeRoot(tree) then Ok(([], None))
    else
      var p := FindFirstNonBlankAncestor(tree, x);
      var parentNode := NodeAt(tree, p);
      if p == TreeRoot(tree) && parentNode.None? then Ok(([], Some(p)))
      else
        var sibling := if x < p then Right(p) else Left(p);
        if parentNode.None? || parentNode.value.NodeLeaf? then Err(InternalError)
        else
          var pn := parentNode.value.parent;
          var removed := RemoveLeaves(tree, pn.unmergedLeaves);
          var siblingHash := TreeHash.TreeHash(removed, sibling, h);
          if siblingHash.Err? then Err(siblingHash.error)
          else Ok((h.digest(EncodeParentHashInput(ParentHashInput(pn.hpkePublicKey, pn.parentHash, siblingHash.value))), Some(p)))
  }

  /**
   * Below a non-blank parent ancestor `p`, the hash is the digest of an input
   * that reads back as `p`'s key, `p`'s own parent hash and the tree hash of
   * the copath child `s` of `p` (the child that is neither `x` nor on the
   * direct path of `x`) with `p`'s unmerged leaves removed; it fails exactly
   * when that subtree holds a node of the wrong kind.
   */
  lemma CalculateParentHashOfParent(tree: RatchetTree, x: NodeIndex, h: Hash, s: NodeIndex)
    requires InTree(tree, x) && x != TreeRoot(tree)
    requires NodeAt(tree, FindFirstNonBlankAncestor(tree, x)).Some? && NodeAt(tree, FindFirstNonBlankAncestor(tree, x)).value.NodeParent?
    requires var p := FindFirstNonBlankAncestor(tree, x);
      Level(p) > 0 && (s == Left(p) || s == Right(p)) && s != x && s !in DirectPath(x, TreeLeafCount(tree))
    ensures var p := FindFirstNonBlankAncestor(tree, x);
      var pn := NodeAt(tree, p).value.parent;
      var removed := RemoveLeaves(tree, pn.unmergedLeaves);
      (CalculateParentHash(tree, x, h).Ok? <==> WellPlaced(removed, s)) &&
      (WellPlaced(removed, s) ==>
        var input := ParentHashInput(pn.hpkePublicKey, pn.parentHash, TreeHash.TreeHash(removed, s, h).value);
        CalculateParentHash(tree, x, h) == Ok((h.digest(EncodeParentHashInput(input)), Some(p))) &&
        Decodes(DecodeParentHashInput, EncodeParentHashInput(input), input))
  {
    var p := FindFirstNonBlankAncestor(tree, x);
    FindFirstNonBlankAncestorIsAncestor(tree, x);
    PathChild(x, TreeLeafCount(tree), p);
    assert s == if x < p then Right(p) else Left(p);
    var pn := NodeAt(tree, p).value.parent;
    var removed := RemoveLeaves(tree, pn.unmergedLeaves);
    if WellPlaced(removed, s) {
      ParentHashInputRoundTrip(ParentHashInput(pn.hpkePublicKey, pn.parentHash, TreeHash.TreeHash(removed, s, h).value));
    }
  }

  /** getParentHash: the parent hash a parent node or a commit-sourced leaf node carries. */
  function GetParentHash(n: Node): Option<seq<byte>> {
    match n
    case NodeParent(p) => Some(p.parentHash)
    case NodeLeaf(l) => if l.info.InfoCommit? then Some(l.info.parentHash) else None
  }

  function CountOf(counts: map<NodeIndex, nat>, k: NodeIndex): nat {
    if k in counts then counts[k] else 0
  }

  /** A node a chain can stand on: under the root, and the root itself or not blank. */
  predicate ChainNode(tree: RatchetTree, x: NodeIndex) {
    InTree(tree, x) && (x == TreeRoot(tree) || NodeAt(tree, x).Some?)
  }

  /**
   * The chain walk below is stated for any parent-hash function `link` that
   * behaves as calculateParentHash does on the points the walk visits: a
   * success names the first non-blank ancestor, a failure is an
   * InternalError. ParentHashLink is calculateParentHash itself.
   */
  type ParentHashFn = NodeIndex -> Result<(seq<byte>, Option<NodeIndex>)>

  ghost predicate LinkSound(tree: RatchetTree, link: ParentHashFn) {
    forall x: NodeIndex :: ChainNode(tree, x) && x != TreeRoot(tree) ==>
      (link(x).Ok? ==> link(x).value.1 == Some(FindFirstNonBlankAncestor(tree, x))) &&
      (link(x).Err? ==> link(x).error == InternalError)
  }

  function ParentHashLink(tree: RatchetTree, h: Hash): ParentHashFn {
    (x: NodeIndex) => if InTree(tree, x) then CalculateParentHash(tree, x, h) else Err(InternalError)
  }

  lemma ParentHashLinkSound(tree: RatchetTree, h: Hash)
    ensures LinkSound(tree, ParentHashLink(tree, h))
  {
  }

  /** `link` accepts `x`: it succeeds there and matches the parent hash `x` carries. */
  predicate Links(tree: RatchetTree, link: ParentHashFn, x: NodeIndex)
    requires ChainNode(tree, x)
  {
    x != TreeRoot(tree) &&
    var c := link(x);
    var expected := GetParentHash(NodeAt(tree, x).value);
    c.Ok? && expected.Some? && c.value.0 == expected.value
  }

  /**
   * The chain from `x` goes on to `k`: walking up through first non-blank
   * ancestors from `x`, every node up to the one below `k` is accepted,
   * and `k` is the ancestor of the last.
   */
  predicate ChainReaches(tree: RatchetTree, link: ParentHashFn, x: NodeIndex, k: NodeIndex)
    requires ChainNode(tree, x)
    decreases TreeRootLevel(tree) - Level(x)
  {
    Links(tree, link, x) &&
    (FindFirstNonBlankAncestor(tree, x) == k || ChainReaches(tree, link, FindFirstNonBlankAncestor(tree, x), k))
  }

  /** What the inner loop of parentHashCoverage adds to `counts` walking up from `x`. */
  function ChainCounts(tree: RatchetTree, link: ParentHashFn, x: NodeIndex, counts: map<NodeIndex, nat>): Result<map<NodeIndex, nat>>
    requires LinkSound(tree, link) && ChainNode(tree, x)
    decreases TreeRootLevel(tree) - Level(x)
  {
    if x == TreeRoot(tree) then Ok(counts)
    else
      var c := link(x);
      if c.Err? then Err(c.error)
      else match c.value.1
        case None => Err(InternalError)
        case Some(p) =>
          var expected := GetParentHash(NodeAt(tree, x).value);
          if expected.Some? && c.value.0 == expected.value then
            ChainCounts(tree, link, p, counts[p := CountOf(counts, p) + 1])
          else Ok(counts)
  }

  /** The outer fold of parentHashCoverage over the leaves from `i` on. */
  function CoverageFrom(tree: RatchetTree, link: ParentHashFn, i: nat, counts: map<NodeIndex, nat>): Result<map<NodeIndex, nat>>
    requires LinkSound(tree, link) && i <= TreeLeafCount(tree)
    decreases TreeLeafCount(tree) - i
  {
    if i == TreeLeafCount(tree) then Ok(counts)
    else if NodeAt(tree, LeafToNodeIndex(i)).None? then CoverageFrom(tree, link, i + 1, counts)
    else
      LeafInTree(tree, i);
      var c := ChainCounts(tree, link, LeafToNodeIndex(i), counts);
      if c.Err? then c else CoverageFrom(tree, link, i + 1, c.value)
  }

  /** The coverage parentHashCoverage computes. */
  function Coverage(tree: RatchetTree, h: Hash): Result<map<NodeIndex, nat>> {
    ParentHashLinkSound(tree, h);
    CoverageFrom(tree, ParentHashLink(tree, h), 0, map[])
  }

  /** The number of non-blank leaves from leaf `i` on whose chain reaches `k`. */
  function ReachCount(tree: RatchetTree, link: ParentHashFn, i: nat, k: NodeIndex): nat
    requires i <= TreeLeafCount(tree)
    decreases TreeLeafCount(tree) - i
  {
    if i == TreeLeafCount(tree) then 0
    else
      LeafInTree(tree, i);
      (if NodeAt(tree, LeafToNodeIndex(i)).Some? && ChainReaches(tree, link, LeafToNodeIndex(i), k) then 1 else 0)
        + ReachCount(tree, link, i + 1, k)
  }

  /** Every node the chain reaches lies above the node it starts from. */
  lemma {:induction false} ChainReachesAbove(tree: RatchetTree, link: ParentHashFn, x: NodeIndex, k: NodeIndex)
    requires ChainNode(tree, x) && ChainReaches(tree, link, x, k)
    ensures Level(k) > Level(x)
    decreases TreeRootLevel(tree) - Level(x)
  {
    var p := FindFirstNonBlankAncestor(tree, x);
    if p != k {
      ChainReachesAbove(tree, link, p, k);
    }
  }

  /** A chain adds one to each node it reaches and nothing elsewhere. */
  lemma {:induction false} ChainCountsAt(tree: RatchetTree, link: ParentHashFn, x: NodeIndex, counts: map<NodeIndex, nat>, k: NodeIndex)
    requires LinkSound(tree, link) && ChainNode(tree, x) && ChainCounts(tree, link, x, counts).Ok?
    ensures CountOf(ChainCounts(tree, link, x, counts).value, k) == CountOf(counts, k) + (if ChainReaches(tree, link, x, k) then 1 else 0)
    decreases TreeRootLevel(tree) - Level(x)
  {
    if x != TreeRoot(tree) && Links(tree, link, x) {
      var p := FindFirstNonBlankAncestor(tree, x);
      var next := counts[p := CountOf(counts, p) + 1];
      assert ChainCounts(tree, link, x, counts) == ChainCounts(tree, link, p, next);
      ChainCountsAt(tree, link, p, next, k);
      if k == p && ChainReaches(tree, link, p, p) {
        ChainReachesAbove(tree, link, p, p);
      }
    }
  }

  /** The fold over the leaves from `i` adds, at each node, the number of those leaves whose chain reaches it. */
  lemma {:induction false} CoverageFromAt(tree: RatchetTree, link: ParentHashFn, i: nat, counts: map<NodeIndex, nat>, k: NodeIndex)
    requires LinkSound(tree, link) && i <= TreeLeafCount(tree) && CoverageFrom(tree, link, i, counts).Ok?
    ensures CountOf(CoverageFrom(tree, link, i, counts).value, k) == CountOf(counts, k) + ReachCount(tree, link, i, k)
    decreases TreeLeafCount(tree) - i
  {
    if i < TreeLeafCount(tree) {
      var x := LeafToNodeIndex(i);
      CoverageFromStep(tree, link, i, counts);
      ReachCountStep(tree, link, i, k);
      if NodeAt(tree, x).None? {
        CoverageFromAt(tree, link, i + 1, counts, k);
      } else {
        var c := ChainCounts(tree, link, x, counts);
        assert c.Ok? && CoverageFrom(tree, link, i, counts) == CoverageFrom(tree, link, i + 1, c.value);
        var n := if ChainReaches(tree, link, x, k) then 1 else 0;
        ChainCountsAt(tree, link, x, counts, k);
        assert CountOf(c.value, k) == CountOf(counts, k) + n;
        CoverageFromAt(tree, link, i + 1, c.value, k);
        assert ReachCount(tree, link, i, k) == n + ReachCount(tree, link, i + 1, k);
      }
    }
  }

  /** One step of the count of leaves whose chain reaches `k`. */
  lemma ReachCountStep(tree: RatchetTree, link: ParentHashFn, i: nat, k: NodeIndex)
    requires i < TreeLeafCount(tree)
    ensures ChainNode(tree, LeafToNodeIndex(i)) || NodeAt(tree, LeafToNodeIndex(i)).None?
    ensures NodeAt(tree, LeafToNodeIndex(i)).None? ==> ReachCount(tree, link, i, k) == ReachCount(tree, link, i + 1, k)
    ensures NodeAt(tree, LeafToNodeIndex(i)).Some? ==>
      ReachCount(tree, link, i, k) == (if ChainReaches(tree, link, LeafToNodeIndex(i), k) then 1 else 0) + ReachCount(tree, link, i + 1, k)
  {
    LeafInTree(tree, i);
  }

  /** The coverage of a node is the number of non-blank leaves whose chain reaches it. */
  lemma CoverageCounts(tree: RatchetTree, h: Hash, k: NodeIndex)
    requires Coverage(tree, h).Ok?
    ensures CountOf(Coverage(tree, h).value, k) == ReachCount(tree, ParentHashLink(tree, h), 0, k)
  {
    ParentHashLinkSound(tree, h);
    CoverageFromAt(tree, ParentHashLink(tree, h), 0, map[], k);
  }

  lemma {:induction false} ChainCountsError(tree: RatchetTree, link: ParentHashFn, x: NodeIndex, counts: map<NodeIndex, nat>)
    requires LinkSound(tree, link) && ChainNode(tree, x) && ChainCounts(tree, link, x, counts).Err?
    ensures ChainCounts(tree, link, x, counts).error == InternalError
    decreases TreeRootLevel(tree) - Level(x)
  {
    if link(x).Ok? {
      var p := FindFirstNonBlankAncestor(tree, x);
      ChainCountsError(tree, link, p, counts[p := CountOf(counts, p) + 1]);
    }
  }

  lemma {:induction false} CoverageFromError(tree: RatchetTree, link: ParentHashFn, i: nat, counts: map<NodeIndex, nat>)
    requires LinkSound(tree, link) && i <= TreeLeafCount(tree) && CoverageFrom(tree, link, i, counts).Err?
    ensures CoverageFrom(tree, link, i, counts).error == InternalError
    decreases TreeLeafCount(tree) - i
  {
    if i < TreeLeafCount(tree) {
      LeafInTree(tree, i);
      var x := LeafToNodeIndex(i);
      if NodeAt(tree, x).None? {
        CoverageFromError(tree, link, i + 1, counts);
      } else if ChainCounts(tree, link, x, counts).Err? {
        ChainCountsError(tree, link, x, counts);
      } else {
        CoverageFromError(tree, link, i + 1, ChainCounts(tree, link, x, counts).value);
      }
    }
  }

  /** Computing the coverage fails only with an InternalError. */
  lemma CoverageError(tree: RatchetTree, h: Hash)
    requires Coverage(tree, h).Err?
    ensures Coverage(tree, h).error == InternalError
  {
    ParentHashLinkSound(tree, h);
    CoverageFromError(tree, ParentHashLink(tree, h), 0, map[]);
  }

  /**
   * The reduce callback of parentHashCoverage for a non-blank leaf: walk up
   * through first non-blank ancestors while the parent hash each one
   * computes matches the one the current node carries, counting every
   * ancestor reached. The parent-hash calculation is passed in as `link`;
   * ParentHashCoverage passes calculateParentHash (ParentHashLink).
   */
  method CoverFromLeaf(tree: RatchetTree, link: ParentHashFn, leafIndex: LeafIndex, counts: map<NodeIndex, nat>)
    returns (r: Result<map<NodeIndex, nat>>)
    requires LinkSound(tree, link)
    requires leafIndex < TreeLeafCount(tree) && NodeAt(tree, LeafToNodeIndex(leafIndex)).Some?
    ensures ChainNode(tree, LeafToNodeIndex(leafIndex))
    ensures r == ChainCounts(tree, link, LeafToNodeIndex(leafIndex), counts)
  {
    LeafInTree(tree, leafIndex);
    var currentIndex := LeafToNodeIndex(leafIndex);
    var updated: map<NodeIndex, nat> := counts;
    var rootIndex := TreeRoot(tree);
    while currentIndex != rootIndex
      invariant ChainNode(tree, currentIndex)
      invariant ChainCounts(tree, link, LeafToNodeIndex(leafIndex), counts) == ChainCounts(tree, link, currentIndex, updated)
      decreases TreeRootLevel(tree) - Level(currentIndex)
    {
      var currentNode := NodeAt(tree, currentIndex);
      if currentNode.None? {
        assert false;
      }
      var c := link(currentIndex);
      ChainCountsStep(tree, link, currentIndex, updated, c);
      if c.Err? {
        return Err(c.error);
      }
      var (parentHash, parentHashNodeIndex) := c.value;
      if parentHashNodeIndex.None? {
        assert false;
      }
      var p := parentHashNodeIndex.value;
      var expectedParentHash := GetParentHash(currentNode.value);
      if expectedParentHash.Some? && parentHash == expectedParentHash.value {
        ghost var before := updated;
        updated := updated[p := CountOf(updated, p) + 1];
        assert ChainCounts(tree, link, currentIndex, before) == ChainCounts(tree, link, p, updated);
      } else {
        break;
      }
      currentIndex := p;
    }
    return Ok(updated);
  }

  /** One step of the chain walk from a non-root chain node, given the link's answer `c` there. */
  lemma ChainCountsStep(tree: RatchetTree, link: ParentHashFn, x: NodeIndex, counts: map<NodeIndex, nat>,
    c: Result<(seq<byte>, Option<NodeIndex>)>)
    requires LinkSound(tree, link) && ChainNode(tree, x) && x != TreeRoot(tree) && c == link(x)
    ensures NodeAt(tree, x).Some?
    ensures c.Err? ==> ChainCounts(tree, link, x, counts) == Err(c.error)
    ensures c.Ok? ==> c.value.1 == Some(FindFirstNonBlankAncestor(tree, x)) && ChainNode(tree, c.value.1.value)
    ensures c.Ok? && GetParentHash(NodeAt(tree, x).value).Some? && c.value.0 == GetParentHash(NodeAt(tree, x).value).value ==>
      var p := c.value.1.value;
      ChainCounts(tree, link, x, counts) == ChainCounts(tree, link, p, counts[p := CountOf(counts, p) + 1])
    ensures c.Ok? && !(GetParentHash(NodeAt(tree, x).value).Some? && c.value.0 == GetParentHash(NodeAt(tree, x).value).value) ==>
      ChainCounts(tree, link, x, counts) == Ok(counts)
  {
    if c.Ok? {
      FindFirstNonBlankAncestorIsAncestor(tree, x);
    }
  }

  /** One step of the fold over the leaves. */
  lemma CoverageFromStep(tree: RatchetTree, link: ParentHashFn, i: nat, counts: map<NodeIndex, nat>)
    requires LinkSound(tree, link) && i < TreeLeafCount(tree)
    ensures ChainNode(tree, LeafToNodeIndex(i)) || NodeAt(tree, LeafToNodeIndex(i)).None?
    ensures NodeAt(tree, LeafToNodeIndex(i)).None? ==> CoverageFrom(tree, link, i, counts) == CoverageFrom(tree, link, i + 1, counts)
    ensures NodeAt(tree, LeafToNodeIndex(i)).Some? ==>
      var c := ChainCounts(tree, link, LeafToNodeIndex(i), counts);
      CoverageFrom(tree, link, i, counts) == if c.Err? then c else CoverageFrom(tree, link, i + 1, c.value)
  {
    LeafInTree(tree, i);
  }

  /** parentHashCoverage: the reduce over the leaves, skipping blank ones, stopping at the first error. */
  method ParentHashCoverage(tree: RatchetTree, h: Hash) returns (r: Result<map<NodeIndex, nat>>)
    ensures r == Coverage(tree, h)
  {
    var link := ParentHashLink(tree, h);
    ParentHashLinkSound(tree, h);
    r := CoverLeaves(tree, link);
  }

  /** The loop of parentHashCoverage, for the parent-hash calculation `link`. */
  method CoverLeaves(tree: RatchetTree, link: ParentHashFn) returns (r: Result<map<NodeIndex, nat>>)
    requires LinkSound(tree, link)
    ensures r == CoverageFrom(tree, link, 0, map[])
  {
    var counts: map<NodeIndex, nat> := map[];
    var leafIndex := 0;
    var leafCount := TreeLeafCount(tree);
    while leafIndex < leafCount
      invariant leafIndex <= leafCount
      invariant CoverageFrom(tree, link, 0, map[]) == CoverageFrom(tree, link, leafIndex, counts)
    {
      CoverageFromStep(tree, link, leafIndex, counts);
      if NodeAt(tree, LeafToNodeIndex(leafIndex)).Some? {
        var updated := CoverFromLeaf(tree, link, leafIndex, counts);
        if updated.Err? {
          return updated;
        }
        counts := updated.value;
      }
      leafIndex := leafIndex + 1;
    }
    return Ok(counts);
  }

  /** Every listed index has a count of exactly one. */
  predicate AllCoveredOnce(parentIndices: seq<NodeIndex>, coverage: map<NodeIndex, nat>) {
    forall i :: 0 <= i < |parentIndices| ==> CountOf(coverage, parentIndices[i]) == 1
  }

  /** validateParentHashCoverage: stops at the first index whose count is not one (a missing index counts zero). */
  method ValidateParentHashCoverage(parentIndices: seq<NodeIndex>, coverage: map<NodeIndex, nat>) returns (r: bool)
    ensures r <==> AllCoveredOnce(parentIndices, coverage)
  {
    for i := 0 to |parentIndices|
      invariant forall j :: 0 <= j < i ==> CountOf(coverage, parentIndices[j]) == 1
    {
      if CountOf(coverage, parentIndices[i]) != 1 {
        return false;
      }
    }
    return true;
  }

  predicate IsParentSlot(tree: RatchetTree, x: NodeIndex) {
    x < |tree| && tree[x].Some? && tree[x].value.NodeParent?
  }

  /** The indices below `n` that hold a parent node, in increasing order. */
  function ParentIndicesBelow(tree: RatchetTree, n: nat): (r: seq<NodeIndex>)
    requires n <= |tree|
    ensures forall x: NodeIndex :: x in r <==> x < n && IsParentSlot(tree, x)
    ensures forall i :: 0 <= i < |r| ==> r[i] < n
    ensures forall i, j :: 0 <= i < j < |r| ==> r[i] < r[j]
  {
    if n == 0 then []
    else ParentIndicesBelow(tree, n - 1) + (if IsParentSlot(tree, n - 1) then [n - 1] else [])
  }

  /** The indices of all parent nodes of the tree, in increasing order. */
  function ParentNodeIndices(tree: RatchetTree): (r: seq<NodeIndex>)
    ensures forall x: NodeIndex :: x in r <==> IsParentSlot(tree, x)
    ensures forall i, j :: 0 <= i < j < |r| ==> r[i] < r[j]
  {
    ParentIndicesBelow(tree, |tree|)
  }

  /**
   * verifyParentHashes: true when the tree has no parent node; otherwise
   * whether every parent node is covered exactly once.
   */
  function VerifyParentHashes(tree: RatchetTree, h: Hash): (r: Result<bool>)
    ensures ParentNodeIndices(tree) == [] ==> r == Ok(true)
    ensures r.Err? ==> r.error == InternalError
  {
    var parentNodes := ParentNodeIndices(tree);
    if parentNodes == [] then Ok(true)
    else
      var coverage := Coverage(tree, h);
      if coverage.Err? then (CoverageError(tree, h); Err(coverage.error))
      else Ok(AllCoveredOnce(parentNodes, coverage.value))
  }

  /**
   * The parent-hash check of section 7.9.2 of RFC 9420: the tree passes
   * exactly when every parent node is reached by the chain of exactly one
   * non-blank leaf.
   */
  lemma VerifyParentHashesMeaning(tree: RatchetTree, h: Hash)
    requires VerifyParentHashes(tree, h).Ok?
    ensures VerifyParentHashes(tree, h).value <==>
      forall x: NodeIndex :: IsParentSlot(tree, x) ==> ReachCount(tree, ParentHashLink(tree, h), 0, x) == 1
  {
    var parentNodes := ParentNodeIndices(tree);
    if parentNodes != [] {
      var coverage := Coverage(tree, h).value;
      forall x | IsParentSlot(tree, x)
        ensures CountOf(coverage, x) == ReachCount(tree, ParentHashLink(tree, h), 0, x)
      {
        CoverageCounts(tree, h, x);
      }
      if AllCoveredOnce(parentNodes, coverage) {
        forall x | IsParentSlot(tree, x)
          ensures ReachCount(tree, ParentHashLink(tree, h), 0, x) == 1
        {
          var i :| 0 <= i < |parentNodes| && parentNodes[i] == x;
        }
      }
    }
  }

  /**
   * The parent hash at `x` reads only the slots outside the subtree of `x`:
   * two trees with the same root that agree there give the same result.
   * (The first non-blank ancestor and its copath subtree all lie outside.)
   */
  lemma CalculateParentHashLocal(t1: RatchetTree, t2: RatchetTree, x: NodeIndex, h: Hash)
    requires InTree(t1, x) && TreeRootLevel(t1) == TreeRootLevel(t2)
    requires forall z: NodeIndex :: !InSubtree(z, x) ==> NodeAt(t1, z) == NodeAt(t2, z)
    ensures InTree(t2, x)
    ensures CalculateParentHash(t1, x, h) == CalculateParentHash(t2, x, h)
  {
    assert TreeRoot(t1) == TreeRoot(t2);
    if x != TreeRoot(t1) {
      forall z: NodeIndex | Level(z) > Level(x)
        ensures NodeAt(t1, z) == NodeAt(t2, z)
      {
        HigherOutsideSpan(x, z);
      }
      FindFirstNonBlankAncestorLocal(t1, t2, x);
      var p := FindFirstNonBlankAncestor(t1, x);
      assert NodeAt(t1, p) == NodeAt(t2, p);
      if NodeAt(t1, p).Some? && NodeAt(t1, p).value.NodeParent? {
        SiblingHashLocal(t1, t2, x, p, NodeAt(t1, p).value.parent.unmergedLeaves, h);
      }
    }
  }

  /**
   * For an ancestor `p` of `x`, the subtree of the child of `p` away from
   * `x` lies outside the subtree of `x`, so its hash (with any leaves
   * removed) is the same in two trees that agree outside the subtree of `x`.
   */
  lemma SiblingHashLocal(t1: RatchetTree, t2: RatchetTree, x: NodeIndex, p: NodeIndex, ul: seq<uint32>, h: Hash)
    requires Level(p) > Level(x)
    requires forall z: NodeIndex :: !InSubtree(z, x) ==> NodeAt(t1, z) == NodeAt(t2, z)
    ensures var s := if x < p then Right(p) else Left(p);
      TreeHash.TreeHash(RemoveLeaves(t1, ul), s, h) == TreeHash.TreeHash(RemoveLeaves(t2, ul), s, h)
  {
    var s := if x < p then Right(p) else Left(p);
    LeftIndex(p);
    RightIndex(p);
    HigherOutsideSpan(x, p);
    assert Pow2(Level(p)) == 2 * Pow2(Level(s));
    forall y: NodeIndex | InSubtree(y, s)
      ensures NodeAt(RemoveLeaves(t1, ul), y) == NodeAt(RemoveLeaves(t2, ul), y)
    {
      RemoveLeavesAgree(t1, t2, ul, y);
    }
    SubtreeSpan(RemoveLeaves(t1, ul), RemoveLeaves(t2, ul), s);
    TreeHashLocal(RemoveLeaves(t1, ul), RemoveLeaves(t2, ul), s, h);
  }

  /** Writing a slot inside the subtree of `x` keeps the parent hash at `x`. */
  lemma UpdateInsideKeepsParentHash(tree: RatchetTree, y: NodeIndex, n: Node, x: NodeIndex, h: Hash)
    requires InTree(tree, x) && InTree(tree, y) && InSubtree(y, x)
    ensures InTree(UpdateArray(tree, y, n), x)
    ensures CalculateParentHash(UpdateArray(tree, y, n), x, h) == CalculateParentHash(tree, x, h)
  {
    UpdateKeepsRoot(tree, y, n);
    CalculateParentHashLocal(tree, UpdateArray(tree, y, n), x, h);
  }
}
