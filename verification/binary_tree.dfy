/**
 The node structure of the roll library (src/BinaryTreeNode.java), as an
 immutable value.

 A Java `BinaryTreeNode` is a value and two nullable child links. Here a
 tree is `Nil` (the Java `null` link) or a `Node` holding a value and two
 subtrees. Because a datatype value is immutable and cannot share structure
 observably, the deep copy, deep equality and leaf test become small
 functions whose contracts state what the Java methods promise.
 */
module BinaryTree {

  datatype Tree<T> = Nil | Node(value: T, left: Tree<T>, right: Tree<T>)

  /** Number of nodes in the tree (a `null` link holds none). */
  function Size<T>(t: Tree<T>): nat
  {
    match t
    case Nil => 0
    case Node(_, l, r) => Size(l) + 1 + Size(r)
  }

  /** The multiset of values held by the nodes of the tree. */
  function Values<T>(t: Tree<T>): multiset<T>
  {
    match t
    case Nil => multiset{}
    case Node(v, l, r) => Values(l) + multiset{v} + Values(r)
  }

  /**
   `isLeaf()`: a node is a leaf when both child links are null, that is,
   exactly when it is the only node of its subtree. Calling it on a null
   reference is a NullPointerException in Java, hence the precondition.
   */
  function IsLeaf<T>(n: Tree<T>): (r: bool)
    requires n.Node?
    ensures r <==> Size(n) == 1
  {
    n.left.Nil? && n.right.Nil?
  }

  /**
   `copy()`: a fresh node holding the same value, whose children are copies
   of the receiver's children; a null child stays null (it is not copied).
   The result is the same tree as the receiver.
   */
  function Copy<T>(n: Tree<T>): (c: Tree<T>)
    requires n.Node?
    ensures c == n
    decreases n
  {
    Node(n.value,
         if n.left.Nil? then Nil else Copy(n.left),
         if n.right.Nil? then Nil else Copy(n.right))
  }

  /**
   `equals` on a node, together with the `Objects.equals` calls it makes on
   the children: two links are equal when both are null, or when both are
   nodes with equal values and pairwise equal children. A null link never
   equals a node.
   */
  function Equals<T(==)>(a: Tree<T>, b: Tree<T>): (r: bool)
    ensures r <==> a == b
  {
    match (a, b)
    case (Nil, Nil) => true
    case (Node(va, la, ra), Node(vb, lb, rb)) =>
      va == vb && Equals(la, lb) && Equals(ra, rb)
    case _ => false
  }

  /** `equals` is reflexive, which also covers the `this == o` shortcut. */
  lemma EqualsReflexive<T>(t: Tree<T>)
    ensures Equals(t, t)
  {
  }

  /** A copy equals its original under `equals`. */
  lemma CopyEquals<T>(n: Tree<T>)
    requires n.Node?
    ensures Equals(Copy(n), n)
    ensures Equals(n, Copy(n))
  {
  }

  /** A copy keeps the absence of each child link. */
  lemma CopyKeepsAbsence<T>(n: Tree<T>)
    requires n.Node?
    ensures Copy(n).left.Nil? <==> n.left.Nil?
    ensures Copy(n).right.Nil? <==> n.right.Nil?
    ensures Size(Copy(n)) == Size(n)
  {
  }

  /**
   `hashCode()` is `Objects.hash(value, leftChild, rightChild)`: a
   combination of the value's hash and the two children's hashes, where a
   null child contributes 0. The integer arithmetic of `Objects.hash` is
   abstracted into `combine`.
   */
  function Hash<T>(t: Tree<T>, valueHash: T -> int, combine: (int, int, int) -> int): int
  {
    match t
    case Nil => 0
    case Node(v, l, r) => combine(valueHash(v), Hash(l, valueHash, combine), Hash(r, valueHash, combine))
  }

  /** Trees that `equals` relates have equal hashes, whatever the hash combination. */
  lemma EqualsImpliesEqualHash<T>(a: Tree<T>, b: Tree<T>,
                                 valueHash: T -> int, combine: (int, int, int) -> int)
    requires Equals(a, b)
    ensures Hash(a, valueHash, combine) == Hash(b, valueHash, combine)
  {
  }

  /** The left/right mirror image of a tree. */
  function Mirror<T>(t: Tree<T>): Tree<T>
  {
    match t
    case Nil => Nil
    case Node(v, l, r) => Node(v, Mirror(r), Mirror(l))
  }

  lemma {:induction false} MirrorInvolution<T>(t: Tree<T>)
    ensures Mirror(Mirror(t)) == t
  {
    match t
    case Nil =>
    case Node(_, l, r) =>
      MirrorInvolution(l);
      MirrorInvolution(r);
  }
}
