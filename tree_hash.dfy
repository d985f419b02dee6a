/**
 * The tree hash of src/treeHash.ts (section 7.8 of RFC 9420): a leaf slot
 * hashes its leaf index and optional leaf node, a parent slot its optional
 * parent node and the hashes of its two subtrees.
 */
module TreeHash {
  import opened Wrappers
  import opened Bytes
  import opened TlsDecoder
  import opened Number
  import opened VariableLength
  import opened Optional
  import opened Crypto
  import opened NodeType
  import opened LeafNode
  import opened ParentNode
  import opened TreeMath
  import opened RatchetTree

  datatype TreeHashInput =
    | LeafNodeHashInput(leafIndex: uint32, leafNode: Option<LeafNode>)
    | ParentNodeHashInput(parentNode: Option<ParentNode>, leftHash: seq<byte>, rightHash: seq<byte>)

  /** The node type leaf, the 4-byte leaf index, then the optional leaf node. */
  function EncodeLeafNodeHashInput(leafIndex: uint32, leafNode: Option<LeafNode>): seq<byte> {
    EncodeNodeType(LeafType) + EncodeLeafNodeHashInputFields(leafIndex, leafNode)
  }

  function EncodeLeafNodeHashInputFields(leafIndex: uint32, leafNode: Option<LeafNode>): seq<byte> {
    EncodeUint32(leafIndex) + EncodeOptional(EncodeLeafNode, leafNode)
  }

  /** Reads what follows the node type of a leaf input. */
  const DecodeLeafNodeHashInput: Decoder<TreeHashInput> :=
    MapDecoders2(DecodeUint32, DecodeOptionalAsWritten(DecodeLeafNode),
      (i: uint32, l: Option<LeafNode>) => LeafNodeHashInput(i, l))

  /** The node type parent, the optional parent node, then the two subtree hashes. */
  function EncodeParentNodeHashInput(parentNode: Option<ParentNode>, leftHash: seq<byte>, rightHash: seq<byte>): seq<byte> {
    EncodeNodeType(ParentType) + EncodeParentNodeHashInputFields(parentNode, leftHash, rightHash)
  }

  function EncodeParentNodeHashInputFields(parentNode: Option<ParentNode>, leftHash: seq<byte>, rightHash: seq<byte>): seq<byte> {
    EncodeOptional(EncodeParentNode, parentNode) + EncodeVarLenData(leftHash) + EncodeVarLenData(rightHash)
  }

  /** Reads what follows the node type of a parent input. */
  const DecodeParentNodeHashInput: Decoder<TreeHashInput> :=
    MapDecoders3(DecodeOptionalAsWritten(DecodeParentNode), DecodeVarLenData, DecodeVarLenData,
      (p: Option<ParentNode>, l: seq<byte>, r: seq<byte>) => ParentNodeHashInput(p, l, r))

  function EncodeTreeHashInput(t: TreeHashInput): seq<byte> {
    match t
    case LeafNodeHashInput(i, l) => EncodeLeafNodeHashInput(i, l)
    case ParentNodeHashInput(p, lh, rh) => EncodeParentNodeHashInput(p, lh, rh)
  }

  function TreeHashInputBodyDecoder(t: NodeTypeName): Decoder<TreeHashInput> {
    match t
    case LeafType => DecodeLeafNodeHashInput
    case ParentType => DecodeParentNodeHashInput
  }

  const DecodeTreeHashInput: Decoder<TreeHashInput> := FlatMapDecoder(DecodeNodeType, TreeHashInputBodyDecoder)

  predicate CanonicalTreeHashInput(t: TreeHashInput) {
    t.LeafNodeHashInput? && t.leafNode.Some? ==> CanonicalLeafNode(t.leafNode.value)
  }

  lemma LeafNodeHashInputRoundTrip(i: uint32, l: Option<LeafNode>)
    requires l.Some? ==> CanonicalLeafNode(l.value)
    ensures Decodes(DecodeTreeHashInput, EncodeLeafNodeHashInput(i, l), LeafNodeHashInput(i, l))
  {
    NodeTypeRoundTrip(LeafType);
    Uint32RoundTrip(i);
    if l.Some? {
      LeafNodeRoundTrip(l.value);
    }
    OptionalAsWrittenRoundTrip(DecodeLeafNode, EncodeLeafNode, l);
    var body := EncodeLeafNodeHashInputFields(i, l);
    MapDecoders2Decodes(DecodeUint32, DecodeOptionalAsWritten(DecodeLeafNode),
      (i: uint32, l: Option<LeafNode>) => LeafNodeHashInput(i, l),
      EncodeUint32(i), EncodeOptional(EncodeLeafNode, l), i, l);
    FlatMapDecoderDecodes(DecodeNodeType, TreeHashInputBodyDecoder, EncodeNodeType(LeafType), body, LeafType,
      LeafNodeHashInput(i, l));
  }

  lemma ParentNodeHashInputRoundTrip(p: Option<ParentNode>, lh: seq<byte>, rh: seq<byte>)
    ensures Decodes(DecodeTreeHashInput, EncodeParentNodeHashInput(p, lh, rh), ParentNodeHashInput(p, lh, rh))
  {
    NodeTypeRoundTrip(ParentType);
    if p.Some? {
      ParentNodeRoundTrip(p.value);
    }
    OptionalAsWrittenRoundTrip(DecodeParentNode, EncodeParentNode, p);
    VarLenDataRoundTrip(lh);
    VarLenDataRoundTrip(rh);
    var body := EncodeParentNodeHashInputFields(p, lh, rh);
    MapDecoders3Decodes(DecodeOptionalAsWritten(DecodeParentNode), DecodeVarLenData, DecodeVarLenData,
      (p: Option<ParentNode>, l: seq<byte>, r: seq<byte>) => ParentNodeHashInput(p, l, r),
      EncodeOptional(EncodeParentNode, p), EncodeVarLenData(lh), EncodeVarLenData(rh), p, lh, rh);
    FlatMapDecoderDecodes(DecodeNodeType, TreeHashInputBodyDecoder, EncodeNodeType(ParentType), body, ParentType,
      ParentNodeHashInput(p, lh, rh));
  }

  /** Both kinds of input read back through the type-dispatching decoder. */
  lemma TreeHashInputRoundTrip(t: TreeHashInput)
    requires CanonicalTreeHashInput(t)
    ensures Decodes(DecodeTreeHashInput, EncodeTreeHashInput(t), t)
  {
    match t
    case LeafNodeHashInput(i, l) => LeafNodeHashInputRoundTrip(i, l);
    case ParentNodeHashInput(p, lh, rh) => ParentNodeHashInputRoundTrip(p, lh, rh);
  }

  /**
   * The leaf index written for the leaf slot `x`. The 32-bit encoder of
   * codec/number is not part of this model; an index past 2^32 - 1 is
   * written modulo 2^32 here.
   */
  function LeafIndexOf(x: NodeIndex): uint32 {
    NodeToLeafIndex(x) % 0x1_0000_0000
  }

  /** The leaf node in a slot, absent for a blank slot. */
  function LeafAt(tree: RatchetTree, x: NodeIndex): Option<LeafNode> {
    match NodeAt(tree, x)
    case Some(NodeLeaf(l)) => Some(l)
    case _ => None
  }

  /** The parent node in a slot, absent for a blank slot. */
  function ParentAt(tree: RatchetTree, x: NodeIndex): Option<ParentNode> {
    match NodeAt(tree, x)
    case Some(NodeParent(p)) => Some(p)
    case _ => None
  }

  /** Every leaf slot of the subtree of `x` holds a leaf or nothing, every parent slot a parent or nothing. */
  predicate WellPlaced(tree: RatchetTree, x: NodeIndex)
    decreases Level(x)
  {
    if IsLeaf(x) then !(NodeAt(tree, x).Some? && NodeAt(tree, x).value.NodeParent?)
    else
      !(NodeAt(tree, x).Some? && NodeAt(tree, x).value.NodeLeaf?) &&
      (LeftIndex(x); RightIndex(x); WellPlaced(tree, Left(x)) && WellPlaced(tree, Right(x)))
  }

  /**
   * treeHash: the hash of the subtree of `x`. A node of the wrong kind
   * anywhere in the subtree is an InternalError, and only that.
   */
  function TreeHash(tree: RatchetTree, x: NodeIndex, h: Hash): (r: Result<seq<byte>>)
    ensures r.Ok? <==> WellPlaced(tree, x)
    ensures r.Err? ==> r.error == InternalError
    decreases Level(x)
  {
    if IsLeaf(x) then
      if NodeAt(tree, x).Some? && NodeAt(tree, x).value.NodeParent? then Err(InternalError)
      else Ok(h.digest(EncodeLeafNodeHashInput(LeafIndexOf(x), LeafAt(tree, x))))
    else
      if NodeAt(tree, x).Some? && NodeAt(tree, x).value.NodeLeaf? then Err(InternalError)
      else
        LeftIndex(x);
        RightIndex(x);
        var leftHash := TreeHash(tree, Left(x), h);
        if leftHash.Err? then leftHash
        else
          var rightHash := TreeHash(tree, Right(x), h);
          if rightHash.Err? then rightHash
          else Ok(h.digest(EncodeParentNodeHashInput(ParentAt(tree, x), leftHash.value, rightHash.value)))
  }

  /** treeHashRoot: the tree hash at the root of the tree's node width. */
  function TreeHashRoot(tree: RatchetTree, h: Hash): (r: Result<seq<byte>>)
    ensures r.Ok? <==> WellPlaced(tree, TreeRoot(tree))
    ensures r == TreeHash(tree, RootFromNodeWidth(|tree|), h)
  {
    TreeHash(tree, TreeRoot(tree), h)
  }

  /**
   * A leaf slot hashes the digest of an input that reads back as its leaf
   * index and its leaf node, or an absent node when the slot is blank.
   */
  lemma TreeHashOfLeaf(tree: RatchetTree, x: NodeIndex, h: Hash)
    requires IsLeaf(x) && WellPlaced(tree, x)
    requires LeafAt(tree, x).Some? ==> CanonicalLeafNode(LeafAt(tree, x).value)
    ensures var input := LeafNodeHashInput(LeafIndexOf(x), LeafAt(tree, x));
      TreeHash(tree, x, h) == Ok(h.digest(EncodeTreeHashInput(input)))
      && Decodes(DecodeTreeHashInput, EncodeTreeHashInput(input), input)
  {
    LeafNodeHashInputRoundTrip(LeafIndexOf(x), LeafAt(tree, x));
  }

  /**
   * A parent slot hashes the digest of an input that reads back as its
   * parent node (absent when blank) and the tree hashes of its children.
   */
  lemma TreeHashOfParent(tree: RatchetTree, x: NodeIndex, h: Hash)
    requires !IsLeaf(x) && WellPlaced(tree, x)
    ensures Level(x) > 0
    ensures TreeHash(tree, Left(x), h).Ok? && TreeHash(tree, Right(x), h).Ok?
    ensures var input := ParentNodeHashInput(ParentAt(tree, x), TreeHash(tree, Left(x), h).value, TreeHash(tree, Right(x), h).value);
      TreeHash(tree, x, h) == Ok(h.digest(EncodeTreeHashInput(input)))
      && Decodes(DecodeTreeHashInput, EncodeTreeHashInput(input), input)
  {
    LeftIndex(x);
    RightIndex(x);
    ParentNodeHashInputRoundTrip(ParentAt(tree, x), TreeHash(tree, Left(x), h).value, TreeHash(tree, Right(x), h).value);
  }

  /** The two trees hold the same slots throughout the subtree of `x`. */
  predicate SubtreeAgrees(t1: RatchetTree, t2: RatchetTree, x: NodeIndex)
    decreases Level(x)
  {
    NodeAt(t1, x) == NodeAt(t2, x) &&
    (!IsLeaf(x) ==> (LeftIndex(x); RightIndex(x); SubtreeAgrees(t1, t2, Left(x)) && SubtreeAgrees(t1, t2, Right(x))))
  }

  /** The hash of a subtree depends on the slots of that subtree and nothing else. */
  lemma {:induction false} TreeHashLocal(t1: RatchetTree, t2: RatchetTree, x: NodeIndex, h: Hash)
    requires SubtreeAgrees(t1, t2, x)
    ensures TreeHash(t1, x, h) == TreeHash(t2, x, h)
    decreases Level(x)
  {
    if !IsLeaf(x) {
      LeftIndex(x);
      RightIndex(x);
      TreeHashLocal(t1, t2, Left(x), h);
      TreeHashLocal(t1, t2, Right(x), h);
    }
  }

  /** Every slot of the subtree of `x` lies within 2^level(x) - 1 of `x`. */
  lemma {:induction false} SubtreeSpan(t1: RatchetTree, t2: RatchetTree, x: NodeIndex)
    requires forall y: NodeIndex :: InSubtree(y, x) ==> NodeAt(t1, y) == NodeAt(t2, y)
    ensures SubtreeAgrees(t1, t2, x)
    decreases Level(x)
  {
    assert x < x + Pow2(Level(x));
    if !IsLeaf(x) {
      LeftIndex(x);
      RightIndex(x);
      var k := Level(x);
      assert Pow2(k) == 2 * Pow2(k - 1);
      SubtreeSpan(t1, t2, Left(x));
      SubtreeSpan(t1, t2, Right(x));
    }
  }

  /** Writing a slot outside the subtree of `x` keeps the hash of that subtree. */
  lemma UpdateOutsideKeepsHash(tree: RatchetTree, y: NodeIndex, n: Node, x: NodeIndex, h: Hash)
    requires !InSubtree(y, x)
    ensures TreeHash(UpdateArray(tree, y, n), x, h) == TreeHash(tree, x, h)
  {
    SubtreeSpan(UpdateArray(tree, y, n), tree, x);
    TreeHashLocal(UpdateArray(tree, y, n), tree, x, h);
  }
}
