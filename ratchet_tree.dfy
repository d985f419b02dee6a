/**
 * The ratchet tree as the core uses it: an array of optional nodes indexed
 * by node index (section 7.1 of RFC 9420). The library's ratchetTree module
 * is not part of this model; the queries the core imports from it
 * (findFirstNonBlankAncestor, filteredDirectPath,
 * filteredDirectPathAndCopathResolution, removeLeaves, getHpkePublicKey)
 * are defined here after sections 4.1, 7.9.2 and 7.5 of RFC 9420,
 * and util/array's updateArray as a copy with one slot replaced.
 */
module RatchetTree {
  import opened Wrappers
  import opened Bytes
  import opened TreeMath
  import opened LeafNode
  import opened ParentNode

  datatype Node = NodeLeaf(leaf: LeafNode) | NodeParent(parent: ParentNode)

  type RatchetTree = seq<Option<Node>>

  /** The slot at `x`; every slot past the end of the array is blank. */
  function NodeAt(tree: RatchetTree, x: NodeIndex): Option<Node> {
    if x < |tree| then tree[x] else None
  }

  function TreeLeafCount(tree: RatchetTree): nat {
    LeafWidth(|tree|)
  }

  function TreeRoot(tree: RatchetTree): NodeIndex {
    RootFromNodeWidth(|tree|)
  }

  function TreeRootLevel(tree: RatchetTree): nat {
    RootLevel(TreeLeafCount(tree))
  }

  /** `x` lies under the root of the tree, so walking up from it reaches the root. */
  predicate InTree(tree: RatchetTree, x: NodeIndex) {
    UnderRoot(x, TreeRootLevel(tree))
  }

  function GetHpkePublicKey(n: Node): seq<byte> {
    match n
    case NodeLeaf(l) => l.data.hpkePublicKey
    case NodeParent(p) => p.hpkePublicKey
  }

  /**
   * getSignaturePublicKeyFromLeafIndex: the signature key of the leaf
   * node at the leaf's slot; a blank or parent slot is an internal error.
   */
  function GetSignaturePublicKeyFromLeafIndex(tree: RatchetTree, leafIndex: LeafIndex): Result<seq<byte>> {
    match NodeAt(tree, LeafToNodeIndex(leafIndex))
    case Some(NodeLeaf(l)) => Ok(l.data.signaturePublicKey)
    case _ => Err(InternalError)
  }

  /** updateArray: a copy with slot `x` set; writing past the end fills the gap with blanks. */
  function UpdateArray(tree: RatchetTree, x: NodeIndex, n: Node): (r: RatchetTree)
    ensures |r| == if x < |tree| then |tree| else x + 1
    ensures NodeAt(r, x) == Some(n)
    ensures forall y: NodeIndex :: y != x ==> NodeAt(r, y) == NodeAt(tree, y)
  {
    if x < |tree| then tree[x := Some(n)]
    else tree + seq(x - |tree|, _ => None) + [Some(n)]
  }

  /** Writing a slot under the root keeps the root, and so which nodes lie under it. */
  lemma UpdateKeepsRoot(tree: RatchetTree, x: NodeIndex, n: Node)
    requires InTree(tree, x)
    ensures TreeRootLevel(UpdateArray(tree, x, n)) == TreeRootLevel(tree)
    ensures TreeRoot(UpdateArray(tree, x, n)) == TreeRoot(tree)
  {
    var l := TreeRootLevel(tree);
    UnderRootBound(x, l);
    if |tree| == 0 {
      assert Pow2(1) == 2;
      assert x == 0;
    } else if x >= |tree| {
      RootLevelOfWider(|tree|, x + 1);
    }
  }

  lemma LeafInTree(tree: RatchetTree, i: LeafIndex)
    requires i < TreeLeafCount(tree)
    ensures InTree(tree, LeafToNodeIndex(i))
  {
    LeafUnderRoot(i, TreeLeafCount(tree));
  }

  /** A leaf slot the tree holds belongs to one of its leaves. */
  lemma LeafSlotHeld(tree: RatchetTree, i: LeafIndex)
    requires LeafToNodeIndex(i) < |tree|
    ensures i < TreeLeafCount(tree)
  {
    assert 2 * i <= |tree| - 1;
    assert i <= (|tree| - 1) / 2;
  }

  lemma ParentInTree(tree: RatchetTree, x: NodeIndex)
    requires InTree(tree, x) && x != TreeRoot(tree)
    ensures InTree(tree, Parent(x)) && Level(Parent(x)) == Level(x) + 1
  {
    ParentUnderRoot(x, TreeLeafCount(tree));
  }

  /**
   * The nearest ancestor of `x` that is not blank, or the root when every
   * ancestor below the root is blank.
   */
  function FindFirstNonBlankAncestor(tree: RatchetTree, x: NodeIndex): (r: NodeIndex)
    requires InTree(tree, x) && x != TreeRoot(tree)
    ensures InTree(tree, r) && Level(r) > Level(x)
    ensures r == TreeRoot(tree) || NodeAt(tree, r).Some?
    decreases TreeRootLevel(tree) - Level(x)
  {
    ParentInTree(tree, x);
    var p := Parent(x);
    if p == TreeRoot(tree) || NodeAt(tree, p).Some? then p else FindFirstNonBlankAncestor(tree, p)
  }

  /** The first non-blank node of `path`, or `fallback` when all are blank. */
  function FirstNonBlankOn(tree: RatchetTree, path: seq<NodeIndex>, fallback: NodeIndex): NodeIndex {
    if path == [] then fallback
    else if NodeAt(tree, path[0]).Some? then path[0]
    else FirstNonBlankOn(tree, path[1..], fallback)
  }

  /** The ancestor found is the first non-blank node of the direct path, or the root. */
  lemma {:induction false} FindFirstNonBlankAncestorOnPath(tree: RatchetTree, x: NodeIndex)
    requires InTree(tree, x) && x != TreeRoot(tree)
    ensures FindFirstNonBlankAncestor(tree, x) == FirstNonBlankOn(tree, DirectPath(x, TreeLeafCount(tree)), TreeRoot(tree))
    decreases TreeRootLevel(tree) - Level(x)
  {
    var n := TreeLeafCount(tree);
    ParentInTree(tree, x);
    var p := Parent(x);
    assert DirectPath(x, n) == [p] + DirectPath(p, n);
    if p != TreeRoot(tree) && NodeAt(tree, p).None? {
      FindFirstNonBlankAncestorOnPath(tree, p);
      assert DirectPath(x, n)[1..] == DirectPath(p, n);
    } else if p == TreeRoot(tree) && NodeAt(tree, p).None? {
      assert DirectPath(p, n) == [];
      assert DirectPath(x, n)[1..] == [];
    }
  }

  lemma {:induction false} FirstNonBlankOnIn(tree: RatchetTree, path: seq<NodeIndex>, fallback: NodeIndex)
    ensures FirstNonBlankOn(tree, path, fallback) in path || FirstNonBlankOn(tree, path, fallback) == fallback
  {
    if path != [] && NodeAt(tree, path[0]).None? {
      FirstNonBlankOnIn(tree, path[1..], fallback);
    }
  }

  /** The ancestor found lies on the direct path of `x`. */
  lemma FindFirstNonBlankAncestorIsAncestor(tree: RatchetTree, x: NodeIndex)
    requires InTree(tree, x) && x != TreeRoot(tree)
    ensures FindFirstNonBlankAncestor(tree, x) in DirectPath(x, TreeLeafCount(tree))
  {
    var n := TreeLeafCount(tree);
    FindFirstNonBlankAncestorOnPath(tree, x);
    FirstNonBlankOnIn(tree, DirectPath(x, n), TreeRoot(tree));
    DirectPathShape(x, n);
  }

  /**
   * The resolution of a node: the node itself when it is not blank (for a
   * parent, followed by its unmerged leaves), nothing for a blank leaf, and
   * the resolutions of the two children for a blank parent.
   */
  function Resolution(tree: RatchetTree, x: NodeIndex): seq<NodeIndex>
    decreases Level(x)
  {
    match NodeAt(tree, x)
    case Some(NodeLeaf(_)) => [x]
    case Some(NodeParent(p)) => [x] + seq(|p.unmergedLeaves|, i requires 0 <= i < |p.unmergedLeaves| => LeafToNodeIndex(p.unmergedLeaves[i]))
    case None =>
      if IsLeaf(x) then []
      else
        LeftIndex(x);
        RightIndex(x);
        Resolution(tree, Left(x)) + Resolution(tree, Right(x))
  }

  /** Every slot of the subtree of `x` is blank. */
  predicate SubtreeBlank(tree: RatchetTree, x: NodeIndex)
    decreases Level(x)
  {
    NodeAt(tree, x).None? &&
    (!IsLeaf(x) ==> (LeftIndex(x); RightIndex(x); SubtreeBlank(tree, Left(x)) && SubtreeBlank(tree, Right(x))))
  }

  /** A resolution is empty exactly when the whole subtree is blank. */
  lemma {:induction false} ResolutionEmpty(tree: RatchetTree, x: NodeIndex)
    ensures Resolution(tree, x) == [] <==> SubtreeBlank(tree, x)
    decreases Level(x)
  {
    if NodeAt(tree, x).None? && !IsLeaf(x) {
      LeftIndex(x);
      RightIndex(x);
      ResolutionEmpty(tree, Left(x));
      ResolutionEmpty(tree, Right(x));
    }
  }

  /** One entry of the filtered direct path: the ancestor and the resolution of its copath child. */
  datatype PathStep = PathStep(nodeIndex: NodeIndex, resolution: seq<NodeIndex>)

  /**
   * The ancestors of `x` whose child off the path has a non-empty
   * resolution, each with that resolution, from `x` towards the root.
   */
  function FilteredPathFrom(tree: RatchetTree, x: NodeIndex): seq<PathStep>
    requires InTree(tree, x)
    decreases TreeRootLevel(tree) - Level(x)
  {
    if x == TreeRoot(tree) then []
    else
      ParentInTree(tree, x);
      var res := Resolution(tree, Sibling(x));
      (if res == [] then [] else [PathStep(Parent(x), res)]) + FilteredPathFrom(tree, Parent(x))
  }

  /** filteredDirectPathAndCopathResolution of section 7.5 of RFC 9420 (leaf to root). */
  function FilteredDirectPathAndCopathResolution(leaf: LeafIndex, tree: RatchetTree): seq<PathStep>
    requires leaf < TreeLeafCount(tree)
  {
    LeafInTree(tree, leaf);
    FilteredPathFrom(tree, LeafToNodeIndex(leaf))
  }

  function StepNodes(steps: seq<PathStep>): (r: seq<NodeIndex>)
    ensures |r| == |steps| && forall j :: 0 <= j < |steps| ==> r[j] == steps[j].nodeIndex
  {
    seq(|steps|, j requires 0 <= j < |steps| => steps[j].nodeIndex)
  }

  function FilteredDirectPath(leaf: LeafIndex, tree: RatchetTree): seq<NodeIndex>
    requires leaf < TreeLeafCount(tree)
  {
    StepNodes(FilteredDirectPathAndCopathResolution(leaf, tree))
  }

  /**
   * Every step of the filtered path is an ancestor of the starting node,
   * lies under the root, carries a non-empty resolution; the levels strictly
   * increase from the leaf to the root.
   */
  lemma {:induction false} FilteredPathShape(tree: RatchetTree, x: NodeIndex)
    requires InTree(tree, x)
    ensures forall j :: 0 <= j < |FilteredPathFrom(tree, x)| ==>
      var s := FilteredPathFrom(tree, x)[j];
      s.nodeIndex in DirectPath(x, TreeLeafCount(tree)) && InTree(tree, s.nodeIndex)
      && Level(s.nodeIndex) > Level(x) && s.resolution != []
    ensures forall j, k :: 0 <= j < k < |FilteredPathFrom(tree, x)| ==>
      Level(FilteredPathFrom(tree, x)[j].nodeIndex) < Level(FilteredPathFrom(tree, x)[k].nodeIndex)
    decreases TreeRootLevel(tree) - Level(x)
  {
    if x != TreeRoot(tree) {
      var n := TreeLeafCount(tree);
      ParentInTree(tree, x);
      var p := Parent(x);
      FilteredPathShape(tree, p);
      assert DirectPath(x, n) == [p] + DirectPath(p, n);
    }
  }

  /** The node indices of the filtered path, in order. */
  lemma FilteredDirectPathNodes(leaf: LeafIndex, tree: RatchetTree)
    requires leaf < TreeLeafCount(tree)
    ensures |FilteredDirectPath(leaf, tree)| == |FilteredDirectPathAndCopathResolution(leaf, tree)|
    ensures InTree(tree, LeafToNodeIndex(leaf))
    ensures forall j :: 0 <= j < |FilteredDirectPath(leaf, tree)| ==>
      FilteredDirectPath(leaf, tree)[j] in DirectPath(LeafToNodeIndex(leaf), TreeLeafCount(tree))
  {
    LeafInTree(tree, leaf);
    FilteredPathShape(tree, LeafToNodeIndex(leaf));
  }

  /** The unmerged leaves that survive the removal of `removed`. */
  function KeepLeaves(ls: seq<uint32>, removed: seq<uint32>): (r: seq<uint32>)
    ensures forall l :: l in r <==> l in ls && l !in removed
  {
    if ls == [] then []
    else (if ls[0] in removed then [] else [ls[0]]) + KeepLeaves(ls[1..], removed)
  }

  /**
   * removeLeaves of section 7.9.2 of RFC 9420: blank every listed leaf and
   * drop it from the unmerged leaves of every parent.
   */
  function RemoveLeaves(tree: RatchetTree, removed: seq<uint32>): (r: RatchetTree)
    ensures |r| == |tree|
    ensures forall x :: 0 <= x < |tree| && IsLeaf(x) && NodeToLeafIndex(x) in removed ==> r[x] == None
    ensures forall x :: 0 <= x < |tree| && !(IsLeaf(x) && NodeToLeafIndex(x) in removed) && !(tree[x].Some? && tree[x].value.NodeParent?) ==>
      r[x] == tree[x]
    ensures forall x :: 0 <= x < |tree| && !(IsLeaf(x) && NodeToLeafIndex(x) in removed) && tree[x].Some? && tree[x].value.NodeParent? ==>
      var p := tree[x].value.parent;
      r[x] == Some(NodeParent(p.(unmergedLeaves := KeepLeaves(p.unmergedLeaves, removed))))
  {
    seq(|tree|, x requires 0 <= x < |tree| =>
      if IsLeaf(x) && NodeToLeafIndex(x) in removed then None
      else match tree[x]
        case Some(NodeParent(p)) => Some(NodeParent(p.(unmergedLeaves := KeepLeaves(p.unmergedLeaves, removed))))
        case other => other)
  }

  /**
   * The first non-blank ancestor of `x` reads only slots above the level of
   * `x`: trees with the same root that agree there find the same one.
   */
  lemma {:induction false} FindFirstNonBlankAncestorLocal(t1: RatchetTree, t2: RatchetTree, x: NodeIndex)
    requires InTree(t1, x) && x != TreeRoot(t1) && TreeRootLevel(t1) == TreeRootLevel(t2)
    requires forall z: NodeIndex :: Level(z) > Level(x) ==> NodeAt(t1, z) == NodeAt(t2, z)
    ensures InTree(t2, x) && x != TreeRoot(t2)
    ensures FindFirstNonBlankAncestor(t1, x) == FindFirstNonBlankAncestor(t2, x)
    decreases TreeRootLevel(t1) - Level(x)
  {
    assert TreeRoot(t1) == TreeRoot(t2);
    ParentInTree(t1, x);
    var p := Parent(x);
    if !(p == TreeRoot(t1) || NodeAt(t1, p).Some?) {
      FindFirstNonBlankAncestorLocal(t1, t2, p);
    }
  }

  /** Removing the same leaves from two trees keeps any slot on which they agree. */
  lemma RemoveLeavesAgree(t1: RatchetTree, t2: RatchetTree, removed: seq<uint32>, z: NodeIndex)
    requires NodeAt(t1, z) == NodeAt(t2, z)
    ensures NodeAt(RemoveLeaves(t1, removed), z) == NodeAt(RemoveLeaves(t2, removed), z)
  {
  }
}
