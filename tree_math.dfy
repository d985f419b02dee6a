/**
 * Array-tree arithmetic of Appendix C of RFC 9420, as the library's
 * treemath module provides it (that file is not part of this model; the
 * definitions follow the RFC). The shifts and masks of the RFC are written
 * as arithmetic on unbounded naturals.
 *
 * Every node index x is `IndexAt(Level(x), Position(x))`: the node at level
 * k and position m is m * 2^(k+1) + 2^k - 1. Parent, children and root are
 * then simple moves on (level, position), which is how the lemmas below
 * state them.
 */
module TreeMath {
  type NodeIndex = nat
  type LeafIndex = nat

  function Pow2(k: nat): (r: nat)
    ensures r >= 1
  {
    if k == 0 then 1 else 2 * Pow2(k - 1)
  }

  /** The number of trailing one bits. */
  function Level(x: NodeIndex): nat {
    if x % 2 == 0 then 0 else 1 + Level(x / 2)
  }

  predicate IsLeaf(x: NodeIndex) {
    x % 2 == 0
  }

  /** The position of a node among the nodes of its level, left to right. */
  function Position(x: NodeIndex): nat {
    x / Pow2(Level(x) + 1)
  }

  /** The node at level `k` and position `m`. */
  function IndexAt(k: nat, m: nat): NodeIndex {
    m * Pow2(k + 1) + Pow2(k) - 1
  }

  function LeafToNodeIndex(i: LeafIndex): (r: NodeIndex)
    ensures IsLeaf(r)
  {
    2 * i
  }

  function NodeToLeafIndex(x: NodeIndex): LeafIndex {
    x / 2
  }

  /** The number of nodes of a tree with `n` leaves. */
  function NodeWidth(n: nat): nat {
    if n == 0 then 0 else 2 * (n - 1) + 1
  }

  /** The number of leaves of a tree with `w` nodes (even indices below `w`). */
  function LeafWidth(w: nat): nat {
    if w == 0 then 0 else (w - 1) / 2 + 1
  }

  /** floor(log2(x)), with log2(0) = 0. */
  function Log2(x: nat): nat {
    if x < 2 then 0 else 1 + Log2(x / 2)
  }

  /** The level of the root of a tree with `n` leaves. */
  function RootLevel(n: nat): nat {
    Log2(NodeWidth(n))
  }

  function Root(n: nat): NodeIndex {
    Pow2(RootLevel(n)) - 1
  }

  /** The root of the tree whose array has `w` slots. */
  function RootFromNodeWidth(w: nat): NodeIndex {
    Root(LeafWidth(w))
  }

  function Left(x: NodeIndex): NodeIndex
    requires Level(x) > 0
  {
    LevelLowerBound(x);
    x - Pow2(Level(x) - 1)
  }

  function Right(x: NodeIndex): NodeIndex
    requires Level(x) > 0
  {
    x + Pow2(Level(x) - 1)
  }

  /** Up one level: bit k+1 of x says whether x is a right child. */
  function Parent(x: NodeIndex): NodeIndex {
    if Position(x) % 2 == 0 then x + Pow2(Level(x)) else x - Pow2(Level(x))
  }

  /** The other child of `x`'s parent. */
  function Sibling(x: NodeIndex): NodeIndex {
    var p := Parent(x);
    ParentLevel(x);
    if x < p then Right(p) else Left(p)
  }

  /** `x` lies in the subtree of the root of level `l`. */
  predicate UnderRoot(x: NodeIndex, l: nat) {
    Level(x) <= l && Position(x) < Pow2(l - Level(x))
  }

  // ---- arithmetic helpers ----

  /** A node of level k is at least 2^k - 1. */
  lemma {:induction false} LevelLowerBound(x: NodeIndex)
    ensures x + 1 >= Pow2(Level(x))
  {
    if x % 2 == 1 {
      LevelLowerBound(x / 2);
    }
  }

  lemma Doubling(p: nat, a: nat)
    ensures p * (2 * a) == 2 * (p * a)
  {
  }

  lemma DivOfMulAdd(m: nat, d: nat, r: nat)
    requires 0 <= r < d
    ensures (m * d + r) / d == m && (m * d + r) % d == r
  {
    var a := m * d + r;
    var q := a / d;
    assert a == d * q + a % d;
    if q > m {
      assert d * q >= d * (m + 1) by { MulMonotone(d, m + 1, q); }
    } else if q < m {
      assert d * m >= d * (q + 1) by { MulMonotone(d, q + 1, m); }
    }
  }

  lemma MulMonotone(d: nat, a: nat, b: nat)
    requires a <= b
    ensures d * a <= d * b
  {
    assert d * b == d * a + d * (b - a);
  }

  lemma Pow2Add(a: nat, b: nat)
    ensures Pow2(a + b) == Pow2(a) * Pow2(b)
    decreases a
  {
    if a > 0 {
      Pow2Add(a - 1, b);
    }
  }

  lemma Pow2Monotone(a: nat, b: nat)
    requires a <= b
    ensures Pow2(a) <= Pow2(b)
    decreases b
  {
    if a < b {
      Pow2Monotone(a, b - 1);
    }
  }

  // ---- the (level, position) decomposition ----

  lemma IndexAtLevel(k: nat, m: nat)
    ensures Level(IndexAt(k, m)) == k && Position(IndexAt(k, m)) == m
  {
    LevelOfIndexAt(k, m);
    assert IndexAt(k, m) == m * Pow2(k + 1) + (Pow2(k) - 1);
    assert Pow2(k + 1) == 2 * Pow2(k);
    DivOfMulAdd(m, Pow2(k + 1), Pow2(k) - 1);
  }

  /** The node at level `k` has `k` trailing one bits. */
  lemma {:induction false} LevelOfIndexAt(k: nat, m: nat)
    ensures Level(IndexAt(k, m)) == k
  {
    if k == 0 {
      assert IndexAt(0, m) == m * 2 + 0;
      DivOfMulAdd(m, 2, 0);
    } else {
      IndexAtStep(k, m);
      DivOfMulAdd(IndexAt(k - 1, m), 2, 1);
      LevelOfIndexAt(k - 1, m);
    }
  }

  /** One level up at the same position: twice the index plus one. */
  lemma IndexAtStep(k: nat, m: nat)
    requires k > 0
    ensures IndexAt(k, m) == IndexAt(k - 1, m) * 2 + 1
  {
    var a := Pow2(k - 1);
    assert Pow2(k) == 2 * a;
    assert Pow2(k + 1) == 2 * Pow2(k);
    Doubling(m, Pow2(k));
  }

  lemma {:induction false} Decompose(x: NodeIndex)
    ensures x == IndexAt(Level(x), Position(x))
    decreases x
  {
    if x % 2 == 0 {
      assert Level(x) == 0;
      DivOfMulAdd(x / 2, 2, 0);
    } else {
      var y := x / 2;
      assert x == 2 * y + 1;
      Decompose(y);
      var k := 1 + Level(y);
      assert Level(x) == k;
      var p := Position(y);
      var a := Pow2(k - 1);
      assert Pow2(k) == 2 * a;
      assert Pow2(k + 1) == 2 * Pow2(k);
      assert y == p * Pow2(k) + a - 1;
      Doubling(p, Pow2(k));
      assert x == IndexAt(k, p);
      IndexAtLevel(k, p);
    }
  }

  /** Level and position determine the node. */
  lemma IndexAtInjective(x: NodeIndex, y: NodeIndex)
    requires Level(x) == Level(y) && Position(x) == Position(y)
    ensures x == y
  {
    Decompose(x);
    Decompose(y);
  }

  // ---- children and parent ----

  lemma LeftIndex(x: NodeIndex)
    requires Level(x) > 0
    ensures Left(x) == IndexAt(Level(x) - 1, 2 * Position(x))
    ensures Level(Left(x)) == Level(x) - 1 && Position(Left(x)) == 2 * Position(x)
  {
    var k := Level(x);
    var m := Position(x);
    var h := Pow2(k - 1);
    Decompose(x);
    assert Pow2(k + 1) == 2 * Pow2(k) && Pow2(k) == 2 * h;
    ChildArithmetic(m, Pow2(k));
    assert Left(x) == x - h;
    assert IndexAt(k - 1, 2 * m) == (2 * m) * Pow2(k) + h - 1;
    IndexAtLevel(k - 1, 2 * m);
  }

  lemma RightIndex(x: NodeIndex)
    requires Level(x) > 0
    ensures Right(x) == IndexAt(Level(x) - 1, 2 * Position(x) + 1)
    ensures Level(Right(x)) == Level(x) - 1 && Position(Right(x)) == 2 * Position(x) + 1
  {
    var k := Level(x);
    var m := Position(x);
    var h := Pow2(k - 1);
    Decompose(x);
    assert Pow2(k + 1) == 2 * Pow2(k) && Pow2(k) == 2 * h;
    ChildArithmetic(m, Pow2(k));
    assert Right(x) == x + h;
    assert IndexAt(k - 1, 2 * m + 1) == (2 * m + 1) * Pow2(k) + h - 1;
    IndexAtLevel(k - 1, 2 * m + 1);
  }

  /** The node at position m, scaled by 2P, begins where positions 2m and 2m + 1 do at scale P. */
  lemma ChildArithmetic(m: nat, p: nat)
    ensures m * (2 * p) == (2 * m) * p && m * (2 * p) + p == (2 * m + 1) * p
  {
  }

  /** The arithmetic behind the parent step: m * b + c - 1 moves by c to the node at position m / 2 one level higher. */
  lemma ParentArithmetic(m: nat, b: nat, c: nat)
    requires b == 2 * c && c >= 1
    ensures m % 2 == 0 ==> m * b + c - 1 + c == (m / 2) * (2 * b) + b - 1
    ensures m % 2 == 1 ==> m * b + c - 1 - c == (m / 2) * (2 * b) + b - 1
  {
    var j := m / 2;
    Doubling(j, b);
    if m % 2 == 0 {
      assert m == 2 * j;
      assert m * b == 2 * (j * b);
    } else {
      assert m == 2 * j + 1;
      assert m * b == 2 * (j * b) + b;
    }
  }

  lemma ParentOfIndexAt(k: nat, m: nat)
    ensures Parent(IndexAt(k, m)) == IndexAt(k + 1, m / 2)
  {
    IndexAtLevel(k, m);
    assert Pow2(k + 2) == 2 * Pow2(k + 1);
    ParentArithmetic(m, Pow2(k + 1), Pow2(k));
  }

  lemma ParentIndexAt(x: NodeIndex)
    ensures Parent(x) == IndexAt(Level(x) + 1, Position(x) / 2)
  {
    Decompose(x);
    ParentOfIndexAt(Level(x), Position(x));
  }

  lemma ParentIndex(x: NodeIndex)
    ensures Parent(x) == IndexAt(Level(x) + 1, Position(x) / 2)
    ensures Level(Parent(x)) == Level(x) + 1 && Position(Parent(x)) == Position(x) / 2
  {
    ParentIndexAt(x);
    IndexAtLevel(Level(x) + 1, Position(x) / 2);
  }

  lemma ParentLevel(x: NodeIndex)
    ensures Level(Parent(x)) == Level(x) + 1
  {
    ParentIndex(x);
  }

  /** The children of `x` have `x` as their parent, and `x` lies between them. */
  lemma ChildrenOfParent(x: NodeIndex)
    requires Level(x) > 0
    ensures Parent(Left(x)) == x && Parent(Right(x)) == x
    ensures Left(x) < x < Right(x)
  {
    LeftIndex(x);
    RightIndex(x);
    ParentIndex(Left(x));
    ParentIndex(Right(x));
    assert (2 * Position(x)) / 2 == Position(x);
    assert (2 * Position(x) + 1) / 2 == Position(x);
    IndexAtInjective(Parent(Left(x)), x);
    IndexAtInjective(Parent(Right(x)), x);
  }

  /** `x` is one of the two children of its parent, the left one exactly when it is smaller. */
  lemma ParentOfChild(x: NodeIndex)
    ensures Level(Parent(x)) > 0
    ensures x < Parent(x) ==> Left(Parent(x)) == x
    ensures x > Parent(x) ==> Right(Parent(x)) == x
    ensures x != Parent(x)
  {
    var p := Parent(x);
    ParentLevel(x);
    ParentIndex(x);
    LeftIndex(p);
    RightIndex(p);
    var m := Position(x);
    if m % 2 == 0 {
      assert m == 2 * (m / 2);
      IndexAtInjective(Left(p), x);
      ChildrenOfParent(p);
    } else {
      assert m == 2 * (m / 2) + 1;
      IndexAtInjective(Right(p), x);
      ChildrenOfParent(p);
    }
  }

  /** The sibling is the other child of the same parent, on the same level. */
  lemma SiblingShape(x: NodeIndex)
    ensures Sibling(x) != x && Parent(Sibling(x)) == Parent(x) && Level(Sibling(x)) == Level(x)
  {
    var p := Parent(x);
    ParentOfChild(x);
    ParentLevel(x);
    ChildrenOfParent(p);
    LeftIndex(p);
    RightIndex(p);
  }

  // ---- the root ----

  lemma {:induction false} Log2Bounds(x: nat)
    requires x >= 1
    ensures Pow2(Log2(x)) <= x < Pow2(Log2(x) + 1)
  {
    if x >= 2 {
      Log2Bounds(x / 2);
    }
  }

  lemma RootIndexAt(n: nat)
    ensures Root(n) == IndexAt(RootLevel(n), 0)
  {
    var l := RootLevel(n);
    assert 0 * Pow2(l + 1) == 0;
  }

  lemma RootIndex(n: nat)
    ensures Root(n) == IndexAt(RootLevel(n), 0) && Level(Root(n)) == RootLevel(n) && Position(Root(n)) == 0
  {
    RootIndexAt(n);
    IndexAtLevel(RootLevel(n), 0);
  }

  /** A number between 2^l and 2^(l+1) - 1 has floor(log2) l. */
  lemma {:induction false} Log2Unique(y: nat, l: nat)
    requires Pow2(l) <= y < Pow2(l + 1)
    ensures Log2(y) == l
    decreases l
  {
    if l > 0 {
      assert Pow2(l) == 2 * Pow2(l - 1);
      assert Pow2(l + 1) == 2 * Pow2(l);
      Log2Unique(y / 2, l - 1);
    }
  }

  lemma BoundArithmetic(x: nat, m: nat, p: nat, s: nat, q: nat, big: nat)
    requires x == m * s + p - 1 && s == 2 * p && p >= 1 && m + 1 <= q && q * s == big
    ensures x + 2 <= big
  {
    MulMonotone(s, m, q - 1);
    assert s * (q - 1) == q * s - s;
  }

  /** Every node under the root of level `l` is below 2^(l+1) - 1. */
  lemma UnderRootBound(x: NodeIndex, l: nat)
    requires UnderRoot(x, l)
    ensures x + 2 <= Pow2(l + 1)
  {
    var k := Level(x);
    var m := Position(x);
    Decompose(x);
    Pow2Add(l - k, k + 1);
    assert l - k + (k + 1) == l + 1;
    assert Pow2(k + 1) == 2 * Pow2(k);
    BoundArithmetic(x, m, Pow2(k), Pow2(k + 1), Pow2(l - k), Pow2(l + 1));
  }

  /** The node width of an array's leaves is its width rounded down to an odd number. */
  lemma NodeWidthOfLeafWidth(w: nat)
    ensures w == 0 ==> NodeWidth(LeafWidth(w)) == 0
    ensures w % 2 == 1 ==> NodeWidth(LeafWidth(w)) == w
    ensures w > 0 && w % 2 == 0 ==> NodeWidth(LeafWidth(w)) == w - 1
  {
  }

  /**
   * Widening an array to `w2` slots keeps the root level when the new width
   * stays below 2^(l+1), the first slot past the subtree of the old root.
   */
  lemma RootLevelOfWider(w1: nat, w2: nat)
    requires 0 < w1 <= w2 < Pow2(RootLevel(LeafWidth(w1)) + 1)
    ensures RootLevel(LeafWidth(w2)) == RootLevel(LeafWidth(w1))
  {
    var l := RootLevel(LeafWidth(w1));
    NodeWidthOfLeafWidth(w1);
    NodeWidthOfLeafWidth(w2);
    Log2Bounds(NodeWidth(LeafWidth(w1)));
    Log2Unique(NodeWidth(LeafWidth(w2)), l);
  }

  /** Every leaf of a tree with `n` leaves lies under its root. */
  lemma LeafUnderRoot(i: LeafIndex, n: nat)
    requires i < n
    ensures UnderRoot(LeafToNodeIndex(i), RootLevel(n))
  {
    var x := LeafToNodeIndex(i);
    Log2Bounds(NodeWidth(n));
    assert x == i * 2 + 0;
    DivOfMulAdd(i, 2, 0);
    assert Level(x) == 0 && Position(x) == i;
  }

  /** The only node of the root's level under the root is the root. */
  lemma UnderRootTop(x: NodeIndex, n: nat)
    requires UnderRoot(x, RootLevel(n))
    ensures Level(x) == RootLevel(n) <==> x == Root(n)
  {
    RootIndex(n);
    if Level(x) == RootLevel(n) {
      TopIsRoot(x, n);
    }
  }

  /** A node under the root on the root's own level is the root. */
  lemma TopIsRoot(x: NodeIndex, n: nat)
    requires UnderRoot(x, RootLevel(n)) && Level(x) == RootLevel(n)
    ensures x == Root(n)
  {
    var l := RootLevel(n);
    assert Position(x) < Pow2(l - Level(x)) == Pow2(0) == 1;
    Decompose(x);
    assert x == IndexAt(l, 0);
    RootIndexAt(n);
  }

  /** Moving up from a node under the root, other than the root, stays under the root. */
  lemma ParentUnderRoot(x: NodeIndex, n: nat)
    requires UnderRoot(x, RootLevel(n)) && x != Root(n)
    ensures UnderRoot(Parent(x), RootLevel(n)) && Level(Parent(x)) == Level(x) + 1
  {
    UnderRootTop(x, n);
    ParentIndex(x);
    var l := RootLevel(n) - Level(x);
    assert Pow2(l) == 2 * Pow2(l - 1);
  }

  /** The children of a node under the root are under the root. */
  lemma ChildrenUnderRoot(x: NodeIndex, l: nat)
    requires UnderRoot(x, l) && Level(x) > 0
    ensures UnderRoot(Left(x), l) && UnderRoot(Right(x), l)
  {
    LeftIndex(x);
    RightIndex(x);
    var d := l - Level(x);
    assert Pow2(d + 1) == 2 * Pow2(d);
  }

  // ---- direct path ----

  /** The ancestors of `x`, from its parent to the root of a tree with `n` leaves. */
  function DirectPath(x: NodeIndex, n: nat): (r: seq<NodeIndex>)
    requires UnderRoot(x, RootLevel(n))
    decreases RootLevel(n) - Level(x)
  {
    if x == Root(n) then []
    else
      ParentUnderRoot(x, n);
      [Parent(x)] + DirectPath(Parent(x), n)
  }

  /** `a` is a proper ancestor of `c` in a tree with `n` leaves. */
  predicate IsAncestor(c: NodeIndex, a: NodeIndex, n: nat)
    requires UnderRoot(c, RootLevel(n))
  {
    a in DirectPath(c, n)
  }

  /**
   * The direct path climbs one level per step and ends at the root; it is
   * empty exactly for the root.
   */
  lemma {:induction false} DirectPathShape(x: NodeIndex, n: nat)
    requires UnderRoot(x, RootLevel(n))
    ensures |DirectPath(x, n)| == RootLevel(n) - Level(x)
    ensures forall j :: 0 <= j < |DirectPath(x, n)| ==>
      Level(DirectPath(x, n)[j]) == Level(x) + j + 1 && UnderRoot(DirectPath(x, n)[j], RootLevel(n))
    ensures |DirectPath(x, n)| > 0 ==> DirectPath(x, n)[|DirectPath(x, n)| - 1] == Root(n)
    ensures DirectPath(x, n) == [] <==> x == Root(n)
    decreases RootLevel(n) - Level(x)
  {
    UnderRootTop(x, n);
    if x != Root(n) {
      ParentUnderRoot(x, n);
      DirectPathShape(Parent(x), n);
    }
  }

  /** The root is an ancestor of every other node under it, and no node is its own ancestor. */
  lemma RootIsAncestor(x: NodeIndex, n: nat)
    requires UnderRoot(x, RootLevel(n))
    ensures x != Root(n) ==> IsAncestor(x, Root(n), n)
    ensures !IsAncestor(x, x, n)
  {
    DirectPathShape(x, n);
    forall j | 0 <= j < |DirectPath(x, n)|
      ensures DirectPath(x, n)[j] != x
    {
      assert Level(DirectPath(x, n)[j]) > Level(x);
    }
  }

  lemma NodeLeafIndexRoundTrip(i: LeafIndex)
    ensures NodeToLeafIndex(LeafToNodeIndex(i)) == i
  {
  }

  lemma LeafNodeIndexRoundTrip(x: NodeIndex)
    requires IsLeaf(x)
    ensures LeafToNodeIndex(NodeToLeafIndex(x)) == x
  {
  }

  /** A tree of 4 leaves has 7 nodes, root 3, and 3's children are 1 and 5. */
  lemma SmallTree()
    ensures NodeWidth(4) == 7 && Root(4) == 3 && Left(3) == 1 && Right(3) == 5 && Parent(4) == 5
  {
    assert Log2(7) == 2 by {
      assert Log2(3) == 1 by { assert Log2(1) == 0; }
    }
    assert Level(3) == 2 by {
      assert Level(1) == 1 by { assert Level(0) == 0; }
    }
    assert Level(4) == 0;
    assert Position(4) == 2;
  }

  /** An ancestor `a` of `x` lies within 2^level(a) - 2^level(x) of `x`. */
  lemma {:induction false} PathSpan(x: NodeIndex, n: nat, a: NodeIndex)
    requires UnderRoot(x, RootLevel(n)) && a in DirectPath(x, n)
    ensures Level(a) > Level(x)
    ensures a - x <= Pow2(Level(a)) - Pow2(Level(x)) && x - a <= Pow2(Level(a)) - Pow2(Level(x))
    decreases RootLevel(n) - Level(x)
  {
    DirectPathShape(x, n);
    ParentUnderRoot(x, n);
    var p := Parent(x);
    assert DirectPath(x, n) == [p] + DirectPath(p, n);
    ParentLevel(x);
    var l := Level(x);
    assert Pow2(l + 1) == 2 * Pow2(l);
    assert p == x + Pow2(l) || p + Pow2(l) == x;
    if a != p {
      PathSpan(p, n, a);
    }
  }

  /** The parent of `x` has `x` on one side and the sibling of `x` on the other. */
  lemma ParentChild(x: NodeIndex, n: nat)
    requires UnderRoot(x, RootLevel(n)) && x != Root(n)
    ensures Level(Parent(x)) > 0
    ensures var a := Parent(x); var c := if x < a then Left(a) else Right(a); c == x
    ensures var a := Parent(x); var s := if x < a then Right(a) else Left(a); s != x && s !in DirectPath(x, n)
  {
    var a := Parent(x);
    ParentLevel(x);
    ParentOfChild(x);
    LeftIndex(a);
    RightIndex(a);
    ChildrenOfParent(a);
    DirectPathShape(x, n);
  }

  lemma SameSideArithmetic(x: int, p: int, a: int, cp: int, pl: int, q: int)
    requires pl >= 1 && 2 * pl <= q
    requires p == x + pl || p + pl == x
    requires (p < a && cp == a - q) || (p >= a && cp == a + q)
    requires p - cp <= q - 2 * pl && cp - p <= q - 2 * pl
    ensures (x < a) == (p < a)
  {
  }

  /**
   * For an ancestor `a` of `x`, the child of `a` on the side of `x` (left
   * when x < a) is `x` or on its direct path, and the other child is
   * neither: it is the copath node below `a`.
   */
  lemma {:induction false} PathChild(x: NodeIndex, n: nat, a: NodeIndex)
    requires UnderRoot(x, RootLevel(n)) && a in DirectPath(x, n)
    ensures Level(a) > 0
    ensures var c := if x < a then Left(a) else Right(a); c == x || c in DirectPath(x, n)
    ensures var s := if x < a then Right(a) else Left(a); s != x && s !in DirectPath(x, n)
    decreases RootLevel(n) - Level(x)
  {
    DirectPathShape(x, n);
    ParentUnderRoot(x, n);
    var p := Parent(x);
    assert DirectPath(x, n) == [p] + DirectPath(p, n);
    if a == p {
      ParentChild(x, n);
    } else {
      PathChild(p, n, a);
      SameSide(x, n, a);
    }
  }

  /** The child of an ancestor `a` of `p` on the side of `p` lies within 2^(level(a)-1) - 2^level(p) of `p`. */
  lemma ChildSpan(p: NodeIndex, n: nat, a: NodeIndex)
    requires UnderRoot(p, RootLevel(n)) && a in DirectPath(p, n) && Level(a) > 0
    requires var cp := if p < a then Left(a) else Right(a); cp == p || cp in DirectPath(p, n)
    ensures var q := Pow2(Level(a) - 1);
      var cp := if p < a then a - q else a + q;
      Pow2(Level(p)) <= q && p - cp <= q - Pow2(Level(p)) && cp - p <= q - Pow2(Level(p))
  {
    var cp := if p < a then Left(a) else Right(a);
    assert Level(cp) == Level(a) - 1 by { LeftIndex(a); RightIndex(a); }
    if cp != p {
      PathSpan(p, n, cp);
      Pow2Monotone(Level(p), Level(a) - 1);
    }
  }

  /** An ancestor above the parent of `x` sees `x` on the same side as that parent. */
  lemma SameSide(x: NodeIndex, n: nat, a: NodeIndex)
    requires UnderRoot(x, RootLevel(n)) && x != Root(n)
    requires UnderRoot(Parent(x), RootLevel(n)) && a in DirectPath(Parent(x), n)
    requires Level(a) > 0
    requires var cp := if Parent(x) < a then Left(a) else Right(a); cp == Parent(x) || cp in DirectPath(Parent(x), n)
    ensures (x < a) == (Parent(x) < a)
  {
    var p := Parent(x);
    var l := Level(x);
    ChildSpan(p, n, a);
    var q := Pow2(Level(a) - 1);
    var cp := if p < a then a - q else a + q;
    assert Level(p) == l + 1 by { ParentLevel(x); }
    assert Pow2(l + 1) == 2 * Pow2(l);
    assert p == x + Pow2(l) || p + Pow2(l) == x;
    SameSideArithmetic(x, p, a, cp, Pow2(l), q);
  }

  /** An ancestor of an ancestor of `x` is an ancestor of `x`. */
  lemma {:induction false} DirectPathTransitive(x: NodeIndex, n: nat, p: NodeIndex, k: NodeIndex)
    requires UnderRoot(x, RootLevel(n)) && p in DirectPath(x, n)
    requires UnderRoot(p, RootLevel(n)) && k in DirectPath(p, n)
    ensures k in DirectPath(x, n)
    decreases RootLevel(n) - Level(x)
  {
    DirectPathShape(x, n);
    ParentUnderRoot(x, n);
    var q := Parent(x);
    assert DirectPath(x, n) == [q] + DirectPath(q, n);
    if p != q {
      DirectPathTransitive(q, n, p, k);
    }
  }

  /** `y` lies in the subtree of `x`: within 2^level(x) - 1 of it. */
  predicate InSubtree(y: NodeIndex, x: NodeIndex) {
    x < y + Pow2(Level(x)) && y < x + Pow2(Level(x))
  }

  /** A node of higher level than `x` lies outside the subtree of `x`. */
  lemma HigherOutsideSpan(x: NodeIndex, z: NodeIndex)
    requires Level(z) > Level(x)
    ensures !InSubtree(z, x)
  {
    var k := Level(x);
    var j := Level(z);
    Decompose(x);
    Decompose(z);
    var b := Pow2(k + 1);
    var c := MultipleOf(Position(z), k + 1, j - k - 1);
    OutsideArithmetic(x, z, Position(x), c, b, Pow2(k));
  }

  /** The node at level k + d and position q, plus one, is a multiple of 2^k when d > 0. */
  lemma MultipleOf(q: nat, k1: nat, d: nat) returns (c: nat)
    ensures IndexAt(k1 + d, q) + 1 == c * Pow2(k1)
  {
    var P := Pow2(k1);
    var A := Pow2(d + 1);
    var B := Pow2(d);
    Pow2Add(k1, d + 1);
    Pow2Add(k1, d);
    c := q * A + B;
    FactorOut(q, A, B, P);
  }

  /** q * (P * A) + P * B == (q * A + B) * P */
  lemma FactorOut(q: nat, A: nat, B: nat, P: nat)
    ensures q * (P * A) + P * B == (q * A + B) * P
  {
    calc {
      q * (P * A) + P * B;
      { assert q * (P * A) == (q * A) * P; }
      (q * A) * P + B * P;
      (q * A + B) * P;
    }
  }


  lemma OutsideArithmetic(x: nat, z: nat, m: nat, c: nat, b: nat, p: nat)
    requires z + 1 == c * b && x + 1 == m * b + p && b == 2 * p && p >= 1
    ensures z + p <= x || x + p <= z
  {
    if c > m {
      MulMonotone(b, m + 1, c);
    } else {
      MulMonotone(b, c, m);
    }
  }

  /** Of two ancestors of `x`, the higher one is an ancestor of the lower one. */
  lemma {:induction false} LaterOnPath(x: NodeIndex, n: nat, a: NodeIndex, b: NodeIndex)
    requires UnderRoot(x, RootLevel(n)) && a in DirectPath(x, n) && b in DirectPath(x, n)
    requires Level(a) < Level(b)
    ensures UnderRoot(a, RootLevel(n)) && b in DirectPath(a, n)
    decreases RootLevel(n) - Level(x)
  {
    DirectPathShape(x, n);
    ParentUnderRoot(x, n);
    var p := Parent(x);
    assert DirectPath(x, n) == [p] + DirectPath(p, n);
    PathSpan(x, n, a);
    if a != p {
      LaterOnPath(p, n, a, b);
    }
  }
}
