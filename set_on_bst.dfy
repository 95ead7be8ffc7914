/**
 * A finite set kept as a binary search tree (Set3a).
 *
 * The tree helpers `IsInTree`, `InsertInTree`, `RemoveSmallest` and
 * `RemoveFromTree` are functions on tree values, each proved to keep the
 * search-tree property and to change the label set exactly as the set
 * operation requires. `BSTSet` is the set object: its one field `tree` is
 * replaced by the kernel methods.
 */
module SetOnBST {

  datatype Tree = Leaf | Node(left: Tree, root: int, right: Tree)

  function Labels(t: Tree): set<int> {
    match t
    case Leaf => {}
    case Node(l, v, r) => Labels(l) + {v} + Labels(r)
  }

  /** The number of nodes (BinaryTree's `size`). */
  function TreeSize(t: Tree): nat {
    match t
    case Leaf => 0
    case Node(l, _, r) => TreeSize(l) + 1 + TreeSize(r)
  }

  /** Every label of the left subtree is below the root, every label of the right subtree above it, at every node. */
  predicate IsBST(t: Tree) {
    match t
    case Leaf => true
    case Node(l, v, r) =>
      && IsBST(l) && IsBST(r)
      && (forall y :: y in Labels(l) ==> y < v)
      && (forall y :: y in Labels(r) ==> v < y)
  }

  /** In a search tree no label is repeated, so the node count is the number of labels. */
  lemma {:induction false} SizeIsCardinality(t: Tree)
    requires IsBST(t)
    ensures TreeSize(t) == |Labels(t)|
  {
    match t
    case Leaf =>
    case Node(l, v, r) =>
      SizeIsCardinality(l);
      SizeIsCardinality(r);
      var below, above := Labels(l), Labels(r);
      assert below !! above by {
        forall y | y in below ensures y !in above {
          assert y < v;
        }
      }
      assert |below + above| == |below| + |above|;
      assert v !in below + above;
      assert Labels(t) == (below + above) + {v};
  }

  /** isInTree: search one path, comparing `x` with each label. */
  function IsInTree(t: Tree, x: int): (b: bool)
    requires IsBST(t)
    ensures b <==> x in Labels(t)
  {
    match t
    case Leaf => false
    case Node(l, v, r) =>
      if v == x then true
      else if v > x then IsInTree(l, x)
      else IsInTree(r, x)
  }

  /** insertInTree: descend left past larger labels, right otherwise, and put `x` at the empty tree reached. */
  function InsertInTree(t: Tree, x: int): (r: Tree)
    requires IsBST(t) && x !in Labels(t)
    ensures IsBST(r) && Labels(r) == Labels(t) + {x}
    ensures TreeSize(r) == TreeSize(t) + 1
  {
    match t
    case Leaf => Node(Leaf, x, Leaf)
    case Node(l, v, rt) =>
      if v > x then Node(InsertInTree(l, x), v, rt)
      else Node(l, v, InsertInTree(rt, x))
  }

  /** removeSmallest: the left-most label, and the tree with that node replaced by its right subtree. */
  function RemoveSmallest(t: Tree): (p: (int, Tree))
    requires IsBST(t) && t.Node?
    ensures p.0 in Labels(t) && forall y :: y in Labels(t) ==> p.0 <= y
    ensures IsBST(p.1) && Labels(p.1) == Labels(t) - {p.0}
    ensures TreeSize(p.1) == TreeSize(t) - 1
  {
    match t
    case Node(l, v, r) =>
      if l.Node? then
        var (smallest, l') := RemoveSmallest(l);
        (smallest, Node(l', v, r))
      else
        (v, r)
  }

  /**
   * removeFromTree: find `x`; a found node takes the smallest label of its
   * right subtree, or is replaced by its left subtree when the right one is empty.
   */
  function RemoveFromTree(t: Tree, x: int): (p: (int, Tree))
    requires IsBST(t) && x in Labels(t)
    ensures p.0 == x
    ensures IsBST(p.1) && Labels(p.1) == Labels(t) - {x}
    ensures TreeSize(p.1) == TreeSize(t) - 1
  {
    match t
    case Node(l, v, r) =>
      if v == x then
        if r.Node? then
          var (successor, r') := RemoveSmallest(r);
          (v, Node(l, successor, r'))
        else
          (v, l)
      else if v > x then
        assert x !in Labels(r);
        var (removed, l') := RemoveFromTree(l, x);
        (removed, Node(l', v, r))
      else
        assert x !in Labels(l);
        var (removed, r') := RemoveFromTree(r, x);
        (removed, Node(l, v, r'))
  }

  /** The set object: the elements are the labels of `tree`, kept a binary search tree. */
  class BSTSet {
    var tree: Tree

    function Elements(): set<int>
      reads this
    {
      Labels(tree)
    }

    predicate Valid()
      reads this
    {
      IsBST(tree)
    }

    constructor ()
      ensures Valid() && Elements() == {}
    {
      tree := Leaf;
    }

    method Clear()
      modifies this
      ensures Valid() && Elements() == {}
    {
      tree := Leaf;
    }

    /** Takes over the elements of `source`, which is left empty. */
    method TransferFrom(source: BSTSet)
      requires source != this && source.Valid()
      modifies this, source
      ensures Valid() && Elements() == old(source.Elements())
      ensures source.Valid() && source.Elements() == {}
    {
      tree := source.tree;
      source.tree := Leaf;
    }

    method Add(x: int)
      requires Valid() && x !in Elements()
      modifies this
      ensures Valid() && Elements() == old(Elements()) + {x}
    {
      tree := InsertInTree(tree, x);
    }

    method Remove(x: int) returns (removed: int)
      requires Valid() && x in Elements()
      modifies this
      ensures removed == x
      ensures Valid() && Elements() == old(Elements()) - {x}
    {
      var p := RemoveFromTree(tree, x);
      removed := p.0;
      tree := p.1;
    }

    /** Removes and returns the least element. */
    method RemoveAny() returns (removed: int)
      requires Valid() && Elements() != {}
      modifies this
      ensures removed in old(Elements()) && forall y :: y in old(Elements()) ==> removed <= y
      ensures Valid() && Elements() == old(Elements()) - {removed}
    {
      var p := RemoveSmallest(tree);
      removed := p.0;
      tree := p.1;
    }

    method Contains(x: int) returns (b: bool)
      requires Valid()
      ensures b <==> x in Elements()
    {
      b := IsInTree(tree, x);
    }

    method Size() returns (n: nat)
      requires Valid()
      ensures n == |Elements()|
    {
      SizeIsCardinality(tree);
      n := TreeSize(tree);
    }
  }
}
