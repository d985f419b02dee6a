/**
 * Path secrets of src/pathSecrets.ts (section 7.4 of RFC 9420): each node
 * on the way from a node to the root gets the secret derived with label
 * "path" from the secret of the node below it, and the commit secret is
 * derived the same way from the root's secret.
 */
module PathSecrets {
  import opened Wrappers
  import opened Bytes
  import opened Crypto
  import opened TreeMath
  import opened RatchetTree

  /** PathSecret of src/updatePath.ts: a node, its secret and the nodes it is encrypted to. */
  datatype PathSecret = PathSecret(nodeIndex: NodeIndex, secret: seq<byte>, sendTo: seq<NodeIndex>)

  type PathSecretMap = map<NodeIndex, seq<byte>>

  /** pathToPathSecrets: a map from node index to secret, where a later entry for the same node overwrites an earlier one. */
  function PathToPathSecrets(ps: seq<PathSecret>): PathSecretMap
    decreases |ps|
  {
    if ps == [] then map[]
    else PathToPathSecrets(ps[..|ps| - 1])[ps[|ps| - 1].nodeIndex := ps[|ps| - 1].secret]
  }

  /** The keys are the node indices listed, and each maps to the secret of its last occurrence. */
  lemma {:induction false} PathToPathSecretsLastWins(ps: seq<PathSecret>)
    ensures forall k :: k in PathToPathSecrets(ps) <==> exists i :: 0 <= i < |ps| && ps[i].nodeIndex == k
    ensures forall i :: 0 <= i < |ps| && (forall j :: i < j < |ps| ==> ps[j].nodeIndex != ps[i].nodeIndex) ==>
      PathToPathSecrets(ps)[ps[i].nodeIndex] == ps[i].secret
    decreases |ps|
  {
    if ps != [] {
      var init := ps[..|ps| - 1];
      PathToPathSecretsLastWins(init);
      var m := PathToPathSecrets(ps);
      forall k
        ensures k in m <==> exists i :: 0 <= i < |ps| && ps[i].nodeIndex == k
      {
        if k in PathToPathSecrets(init) {
          var i :| 0 <= i < |init| && init[i].nodeIndex == k;
          assert ps[i].nodeIndex == k;
        }
      }
      forall i | 0 <= i < |ps| && (forall j :: i < j < |ps| ==> ps[j].nodeIndex != ps[i].nodeIndex)
        ensures m[ps[i].nodeIndex] == ps[i].secret
      {
        if i < |ps| - 1 {
          assert init[i] == ps[i];
          assert forall j :: i < j < |init| ==> init[j] == ps[j];
        }
      }
    }
  }

  /** The secret of the next node up: deriveSecret(secret, "path"). */
  function NextPathSecret(kdf: Kdf, secret: seq<byte>): seq<byte> {
    DeriveSecret(kdf, secret, "path")
  }

  /** `k` is one of the nodes reached from `x` by repeated first non-blank ancestors. */
  predicate OnChain(tree: RatchetTree, x: NodeIndex, k: NodeIndex)
    requires InTree(tree, x)
    decreases TreeRootLevel(tree) - Level(x)
  {
    x != TreeRoot(tree) &&
    (FindFirstNonBlankAncestor(tree, x) == k || OnChain(tree, FindFirstNonBlankAncestor(tree, x), k))
  }

  /**
   * The map pathToRoot returns: `x` with `secret`, and every node reached
   * from `x` by first non-blank ancestors with the secret derived from the
   * one before it.
   */
  function PathSecretsFrom(tree: RatchetTree, x: NodeIndex, secret: seq<byte>, kdf: Kdf): PathSecretMap
    requires InTree(tree, x)
    decreases TreeRootLevel(tree) - Level(x)
  {
    if x == TreeRoot(tree) then map[x := secret]
    else map[x := secret] + PathSecretsFrom(tree, FindFirstNonBlankAncestor(tree, x), NextPathSecret(kdf, secret), kdf)
  }

  /**
   * The map holds exactly `x` and the nodes of its chain; `x` keeps the
   * given secret; every chain node is the root or non-blank and lies on the
   * direct path of `x`; and the root is always present.
   */
  lemma {:induction false} PathSecretsFromShape(tree: RatchetTree, x: NodeIndex, secret: seq<byte>, kdf: Kdf)
    requires InTree(tree, x)
    ensures forall k :: k in PathSecretsFrom(tree, x, secret, kdf) <==> k == x || OnChain(tree, x, k)
    ensures PathSecretsFrom(tree, x, secret, kdf)[x] == secret
    ensures TreeRoot(tree) in PathSecretsFrom(tree, x, secret, kdf)
    ensures forall k :: OnChain(tree, x, k) ==>
      Level(k) > Level(x) && k in DirectPath(x, TreeLeafCount(tree)) && (k == TreeRoot(tree) || NodeAt(tree, k).Some?)
    decreases TreeRootLevel(tree) - Level(x)
  {
    if x != TreeRoot(tree) {
      var p := FindFirstNonBlankAncestor(tree, x);
      var n := TreeLeafCount(tree);
      PathSecretsFromShape(tree, p, NextPathSecret(kdf, secret), kdf);
      FindFirstNonBlankAncestorIsAncestor(tree, x);
      PathSpan(x, n, p);
      forall k | OnChain(tree, x, k)
        ensures k in DirectPath(x, n)
      {
        if k != p {
          DirectPathTransitive(x, n, p, k);
        }
      }
    }
  }

  /** The node above each non-root map entry maps to the secret derived from that entry's secret. */
  lemma {:induction false} PathSecretsFromChain(tree: RatchetTree, x: NodeIndex, secret: seq<byte>, kdf: Kdf, k: NodeIndex)
    requires InTree(tree, x) && InTree(tree, k) && k != TreeRoot(tree)
    requires k in PathSecretsFrom(tree, x, secret, kdf)
    ensures FindFirstNonBlankAncestor(tree, k) in PathSecretsFrom(tree, x, secret, kdf)
    ensures PathSecretsFrom(tree, x, secret, kdf)[FindFirstNonBlankAncestor(tree, k)] ==
      NextPathSecret(kdf, PathSecretsFrom(tree, x, secret, kdf)[k])
    decreases TreeRootLevel(tree) - Level(x)
  {
    var p := FindFirstNonBlankAncestor(tree, x);
    PathSecretsFromShape(tree, x, secret, kdf);
    if k != x {
      PathSecretsFromShape(tree, p, NextPathSecret(kdf, secret), kdf);
      PathSecretsFromChain(tree, p, NextPathSecret(kdf, secret), kdf, k);
    } else {
      PathSecretsFromShape(tree, p, NextPathSecret(kdf, secret), kdf);
    }
  }

  /**
   * pathToRoot: start with `nodeIndex` mapped to `pathSecret`, then climb to
   * the first non-blank ancestor, storing the next secret, until the root.
   */
  method PathToRoot(tree: RatchetTree, nodeIndex: NodeIndex, pathSecret: seq<byte>, kdf: Kdf) returns (pathSecrets: PathSecretMap)
    requires InTree(tree, nodeIndex)
    ensures pathSecrets == PathSecretsFrom(tree, nodeIndex, pathSecret, kdf)
  {
    var rootIndex := TreeRoot(tree);
    var currentIndex := nodeIndex;
    pathSecrets := map[nodeIndex := pathSecret];
    while currentIndex != rootIndex
      invariant InTree(tree, currentIndex) && currentIndex in pathSecrets
      invariant pathSecrets + PathSecretsFrom(tree, currentIndex, pathSecrets[currentIndex], kdf) ==
        PathSecretsFrom(tree, nodeIndex, pathSecret, kdf)
      decreases TreeRootLevel(tree) - Level(currentIndex)
    {
      var nextIndex := FindFirstNonBlankAncestor(tree, currentIndex);
      var nextSecret := NextPathSecret(kdf, pathSecrets[currentIndex]);
      ghost var before := pathSecrets;
      pathSecrets := pathSecrets[nextIndex := nextSecret];
      PathSecretsStep(tree, before, currentIndex, kdf);
      currentIndex := nextIndex;
    }
    assert PathSecretsFrom(tree, currentIndex, pathSecrets[currentIndex], kdf) == map[currentIndex := pathSecrets[currentIndex]];
    assert pathSecrets + map[currentIndex := pathSecrets[currentIndex]] == pathSecrets;
  }

  /** One climb of pathToRoot keeps the union of what is stored and what is still to come. */
  lemma PathSecretsStep(tree: RatchetTree, m: PathSecretMap, x: NodeIndex, kdf: Kdf)
    requires InTree(tree, x) && x != TreeRoot(tree) && x in m
    ensures var p := FindFirstNonBlankAncestor(tree, x);
      var s := NextPathSecret(kdf, m[x]);
      m[p := s] + PathSecretsFrom(tree, p, s, kdf) == m + PathSecretsFrom(tree, x, m[x], kdf)
  {
    var p := FindFirstNonBlankAncestor(tree, x);
    var s := NextPathSecret(kdf, m[x]);
    var rest := PathSecretsFrom(tree, p, s, kdf);
    PathSecretsFromShape(tree, p, s, kdf);
    assert PathSecretsFrom(tree, x, m[x], kdf) == map[x := m[x]] + rest;
    assert m + (map[x := m[x]] + rest) == m[p := s] + rest;
  }

  /**
   * getCommitSecret: the root's path secret, derived once more with label
   * "path". The root is always in the map, so the InternalError for a
   * missing root secret never happens.
   */
  function GetCommitSecret(tree: RatchetTree, nodeIndex: NodeIndex, pathSecret: seq<byte>, kdf: Kdf): (r: Result<seq<byte>>)
    requires InTree(tree, nodeIndex)
    ensures r.Ok?
  {
    var rootIndex := TreeRoot(tree);
    var path := PathSecretsFrom(tree, nodeIndex, pathSecret, kdf);
    PathSecretsFromShape(tree, nodeIndex, pathSecret, kdf);
    if rootIndex !in path then Err(InternalError)
    else Ok(NextPathSecret(kdf, path[rootIndex]))
  }

  /**
   * A member holding the secret of any node on the chain from `x` computes
   * the same commit secret as the member holding `x`'s secret.
   */
  lemma {:induction false} CommitSecretAlongChain(tree: RatchetTree, x: NodeIndex, secret: seq<byte>, kdf: Kdf, k: NodeIndex)
    requires InTree(tree, x) && InTree(tree, k) && k in PathSecretsFrom(tree, x, secret, kdf)
    ensures GetCommitSecret(tree, k, PathSecretsFrom(tree, x, secret, kdf)[k], kdf) == GetCommitSecret(tree, x, secret, kdf)
    decreases TreeRootLevel(tree) - Level(x)
  {
    PathSecretsFromShape(tree, x, secret, kdf);
    if k != x {
      var p := FindFirstNonBlankAncestor(tree, x);
      var s := NextPathSecret(kdf, secret);
      PathSecretsFromShape(tree, p, s, kdf);
      assert PathSecretsFrom(tree, x, secret, kdf) == map[x := secret] + PathSecretsFrom(tree, p, s, kdf);
      CommitSecretAlongChain(tree, p, s, kdf, k);
      RootSecretAfterStep(tree, x, secret, kdf);
    }
  }

  /** The root secret of the map from `x` is the root secret of the map from the next node up. */
  lemma RootSecretAfterStep(tree: RatchetTree, x: NodeIndex, secret: seq<byte>, kdf: Kdf)
    requires InTree(tree, x) && x != TreeRoot(tree)
    ensures var p := FindFirstNonBlankAncestor(tree, x);
      GetCommitSecret(tree, x, secret, kdf) == GetCommitSecret(tree, p, NextPathSecret(kdf, secret), kdf)
  {
    var p := FindFirstNonBlankAncestor(tree, x);
    var s := NextPathSecret(kdf, secret);
    PathSecretsFromShape(tree, x, secret, kdf);
    PathSecretsFromShape(tree, p, s, kdf);
    assert PathSecretsFrom(tree, x, secret, kdf) == map[x := secret] + PathSecretsFrom(tree, p, s, kdf);
    assert Level(TreeRoot(tree)) == TreeRootLevel(tree) by {
      RootIndex(TreeLeafCount(tree));
    }
    assert x != TreeRoot(tree);
  }
}
