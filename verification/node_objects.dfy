/**
 The Java node as a heap object (src/BinaryTreeNode.java), for the
 properties that are about references rather than values: `copy()` builds
 an entirely new node graph, `equals` starts with an identity shortcut and
 treats `null` specially, and each setter changes one field only.

 `Repr` is the set of objects of the subtree and `model` the tree they
 spell; `Valid()` says the links form a proper tree (no sharing, no cycle)
 that spells `model`.
 */
module NodeObjects {
  import opened BinaryTree
  import opened RollUtils

  /** The tree behind a nullable link. */
  ghost function ModelOf<T>(n: BinaryTreeNode?<T>): Tree<T>
    reads n
  {
    if n == null then Nil else n.model
  }

  /** The tree that a well-formed node spells, read from its fields through the getters. */
  function TreeOf<T>(n: BinaryTreeNode?<T>): (t: Tree<T>)
    reads if n == null then {} else n.Repr
    requires n != null ==> n.Valid()
    ensures t == ModelOf(n)
    decreases if n == null then {} else n.Repr
  {
    if n == null then Nil else Tree.Node(n.value, TreeOf(n.left), TreeOf(n.right))
  }

  class BinaryTreeNode<T(==)> {
    var value: T
    var left: BinaryTreeNode?<T>
    var right: BinaryTreeNode?<T>
    ghost var Repr: set<object>
    ghost var model: Tree<T>

    ghost predicate Valid()
      reads this, Repr
      ensures Valid() ==> this in Repr && model.Node?
      decreases Repr
    {
      && this in Repr
      && (left != null ==>
            && left in Repr && left.Repr <= Repr && this !in left.Repr && left.Valid())
      && (right != null ==>
            && right in Repr && right.Repr <= Repr && this !in right.Repr && right.Valid())
      && (left != null && right != null ==> left.Repr !! right.Repr)
      && model == Tree.Node(value, ModelOf(left), ModelOf(right))
    }

    /** `new BinaryTreeNode<>(value)`: both links null. */
    constructor Leaf(v: T)
      ensures Valid() && fresh(Repr)
      ensures value == v && left == null && right == null
      ensures model == Tree.Node(v, Nil, Nil)
    {
      value := v;
      left := null;
      right := null;
      Repr := {this};
      model := Tree.Node(v, Nil, Nil);
    }

    /** `isLeaf()`: both links are null. */
    predicate IsLeaf()
      reads this, Repr
      requires Valid()
      ensures IsLeaf() <==> BinaryTree.IsLeaf(model)
    {
      left == null && right == null
    }

    /**
     `new BinaryTreeNode<>(value, leftChild, rightChild)`. The Java
     constructor accepts any links; here the two subtrees must share no
     object, which is what keeps the structure a tree.
     */
    constructor Join(v: T, l: BinaryTreeNode?<T>, r: BinaryTreeNode?<T>)
      requires l != null ==> l.Valid()
      requires r != null ==> r.Valid()
      requires l != null && r != null ==> l.Repr !! r.Repr
      ensures Valid()
      ensures value == v && left == l && right == r
      ensures Repr == {this} + (if l == null then {} else l.Repr) + (if r == null then {} else r.Repr)
      ensures model == Tree.Node(v, ModelOf(l), ModelOf(r))
    {
      value := v;
      left := l;
      right := r;
      Repr := {this} + (if l == null then {} else l.Repr) + (if r == null then {} else r.Repr);
      model := Tree.Node(v, ModelOf(l), ModelOf(r));
    }

    /**
     `copy()`: a new node with the same value, and a copy of each non-null
     child. Every object of the copy is newly allocated, so the copy shares
     no node with the receiver, and it spells the same tree. (The Java code
     allocates the new node before copying the children; the order makes no
     difference to the result.)
     */
    method Copy() returns (c: BinaryTreeNode<T>)
      requires Valid()
      ensures c.Valid() && fresh(c.Repr)
      ensures c.model == model
      ensures (c.left == null) == (left == null) && (c.right == null) == (right == null)
      decreases Repr
    {
      var l: BinaryTreeNode?<T> := null;
      if left != null {
        l := left.Copy();
      }
      var r: BinaryTreeNode?<T> := null;
      if right != null {
        r := right.Copy();
      }
      c := new BinaryTreeNode.Join(value, l, r);
    }

    /**
     `equals(o)`: true for the same object; false for `null`; otherwise
     equal values and children that `Objects.equals` relates. It holds
     exactly when both nodes spell the same tree.
     */
    method Equals(o: BinaryTreeNode?<T>) returns (r: bool)
      requires Valid()
      requires o != null ==> o.Valid()
      ensures r <==> o != null && model == o.model
      decreases Repr, 0
    {
      if this == o {
        return true;
      }
      if o == null {
        return false;
      }
      var sameLeft := ObjectsEquals(left, o.left);
      var sameRight := ObjectsEquals(right, o.right);
      r := value == o.value && sameLeft && sameRight;
    }

    /** `setValue`: the links stay as they were. */
    method SetValue(v: T)
      modifies this
      ensures value == v && left == old(left) && right == old(right)
      ensures Repr == old(Repr) && model == old(model)
    {
      value := v;
    }

    /** `setLeftChild`: the value and the right link stay as they were. */
    method SetLeftChild(l: BinaryTreeNode?<T>)
      modifies this
      ensures left == l && value == old(value) && right == old(right)
      ensures Repr == old(Repr) && model == old(model)
    {
      left := l;
    }

    /** `setRightChild`: the value and the left link stay as they were. */
    method SetRightChild(r: BinaryTreeNode?<T>)
      modifies this
      ensures right == r && value == old(value) && left == old(left)
      ensures Repr == old(Repr) && model == old(model)
    {
      right := r;
    }
  }

  /**
   `Objects.equals(a, b)` on two links: true for the same reference (both
   null included), false when only `a` is null, otherwise `a.equals(b)`.
   */
  method ObjectsEquals<T(==)>(a: BinaryTreeNode?<T>, b: BinaryTreeNode?<T>) returns (r: bool)
    requires a != null ==> a.Valid()
    requires b != null ==> b.Valid()
    ensures r <==> ModelOf(a) == ModelOf(b)
    decreases if a == null then {} else a.Repr, 1
  {
    if a == b {
      r := true;
    } else if a == null {
      r := false;
    } else {
      r := a.Equals(b);
    }
  }

  /**
   `roll(root, variant)` on objects. A null root is rejected. Otherwise the
   sweep is handed `root.copy()`: a tree of newly allocated objects that
   spells the same tree. The method writes no existing object (it has no
   `modifies` clause), so the caller's tree still spells what it did, and
   the result is the roll of the caller's tree. The in-place sweep itself
   is given by its net effect on the tree the copy spells.
   */
  method RollOnCopy<T(==)>(root: BinaryTreeNode?<T>, variant: Variant)
    returns (work: BinaryTreeNode?<T>, r: Result<Tree<T>>)
    requires root != null ==> root.Valid()
    ensures r == Roll(ModelOf(root), variant)
    ensures root == null ==> work == null
    ensures root != null ==> work != null && work.Valid() && fresh(work.Repr) && work.model == root.model
    ensures root != null ==> root.Valid() && root.model == old(root.model)
  {
    if root == null {
      return null, Failure(NullRoot(NullRootMessage));
    }
    work := root.Copy();
    var t := TreeOf(work);
    r := Success(if variant == Clockwise then RollCW(t) else RollCCW(t));
    RollWorksOnCopy(root.model, variant);
  }
}
