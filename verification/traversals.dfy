/**
 The three depth-first orders in which the printer lists node values
 (`preOrder`, `inOrder`, `postOrder` in src/BinaryTreePrinter.java), as
 sequences. They are the vocabulary in which the roll is characterised.
 A `null` link contributes nothing; the Java methods only recurse into
 non-null children, which is the same thing.
 */
module Traversals {
  import opened BinaryTree

  /** Node, then left subtree, then right subtree. */
  function PreOrder<T>(t: Tree<T>): (s: seq<T>)
    ensures |s| == Size(t)
  {
    match t
    case Nil => []
    case Node(v, l, r) => [v] + PreOrder(l) + PreOrder(r)
  }

  /** Left subtree, then node, then right subtree. */
  function InOrder<T>(t: Tree<T>): (s: seq<T>)
    ensures |s| == Size(t)
  {
    match t
    case Nil => []
    case Node(v, l, r) => InOrder(l) + [v] + InOrder(r)
  }

  /** Left subtree, then right subtree, then node. */
  function PostOrder<T>(t: Tree<T>): (s: seq<T>)
    ensures |s| == Size(t)
  {
    match t
    case Nil => []
    case Node(v, l, r) => PostOrder(l) + PostOrder(r) + [v]
  }

  /** Pre-order starts at the root; post-order ends at it. */
  lemma RootEndsTraversals<T>(t: Tree<T>)
    requires t.Node?
    ensures PreOrder(t)[0] == t.value
    ensures PostOrder(t)[Size(t) - 1] == t.value
  {
  }

  /** Each traversal lists every node exactly once: its multiset of entries is the tree's multiset of values. */
  lemma {:induction false} PreOrderListsEveryNode<T>(t: Tree<T>)
    ensures multiset(PreOrder(t)) == Values(t)
  {
    match t
    case Nil =>
    case Node(v, l, r) =>
      PreOrderListsEveryNode(l);
      PreOrderListsEveryNode(r);
      var pl, pr := PreOrder(l), PreOrder(r);
      assert PreOrder(t) == [v] + pl + pr;
      assert multiset([v] + pl + pr) == multiset([v]) + multiset(pl) + multiset(pr);
      assert multiset([v]) == multiset{v};
  }

  lemma {:induction false} InOrderListsEveryNode<T>(t: Tree<T>)
    ensures multiset(InOrder(t)) == Values(t)
  {
    match t
    case Nil =>
    case Node(v, l, r) =>
      InOrderListsEveryNode(l);
      InOrderListsEveryNode(r);
      assert InOrder(t) == InOrder(l) + ([v] + InOrder(r));
  }

  lemma {:induction false} PostOrderListsEveryNode<T>(t: Tree<T>)
    ensures multiset(PostOrder(t)) == Values(t)
  {
    match t
    case Nil =>
    case Node(v, l, r) =>
      PostOrderListsEveryNode(l);
      PostOrderListsEveryNode(r);
      var pl, pr := PostOrder(l), PostOrder(r);
      assert PostOrder(t) == pl + pr + [v];
      assert multiset(pl + pr + [v]) == multiset(pl) + multiset(pr) + multiset([v]);
      assert multiset([v]) == multiset{v};
  }

  /** The first in-order value is the value at the bottom of the left spine. */
  function LeftSpineBottom<T>(t: Tree<T>): (v: T)
    requires t.Node?
  {
    if t.left.Nil? then t.value else LeftSpineBottom(t.left)
  }

  /** The last in-order value is the value at the bottom of the right spine. */
  function RightSpineBottom<T>(t: Tree<T>): (v: T)
    requires t.Node?
  {
    if t.right.Nil? then t.value else RightSpineBottom(t.right)
  }

  lemma {:induction false} InOrderEnds<T>(t: Tree<T>)
    requires t.Node?
    ensures InOrder(t)[0] == LeftSpineBottom(t)
    ensures InOrder(t)[|InOrder(t)| - 1] == RightSpineBottom(t)
  {
    if t.left.Node? {
      InOrderEnds(t.left);
    }
    if t.right.Node? {
      InOrderEnds(t.right);
    }
  }

  /** Sequence reversal, used to relate the traversals of a tree and of its mirror image. */
  function Reverse<T>(s: seq<T>): (r: seq<T>)
    ensures |r| == |s|
  {
    if s == [] then [] else Reverse(s[1..]) + [s[0]]
  }

  lemma {:induction false} ReverseIndex<T>(s: seq<T>, i: int)
    requires 0 <= i < |s|
    ensures Reverse(s)[i] == s[|s| - 1 - i]
    decreases |s|
  {
    if i < |s| - 1 {
      ReverseIndex(s[1..], i);
    }
  }

  lemma {:induction false} ReverseConcat<T>(a: seq<T>, b: seq<T>)
    ensures Reverse(a + b) == Reverse(b) + Reverse(a)
  {
    var x, y := Reverse(a + b), Reverse(b) + Reverse(a);
    forall i | 0 <= i < |x|
      ensures x[i] == y[i]
    {
      ReverseIndex(a + b, i);
      if i < |b| {
        ReverseIndex(b, i);
      } else {
        ReverseIndex(a, i - |b|);
      }
    }
  }

  lemma {:induction false} ReverseReverse<T>(s: seq<T>)
    ensures Reverse(Reverse(s)) == s
  {
    forall i | 0 <= i < |s|
      ensures Reverse(Reverse(s))[i] == s[i]
    {
      ReverseIndex(Reverse(s), i);
      ReverseIndex(s, |s| - 1 - i);
    }
  }

  /**
   Mirroring a tree reverses its in-order, and exchanges its pre-order with
   the reverse of its post-order (and the other way round).
   */
  lemma {:induction false} MirrorInOrder<T>(t: Tree<T>)
    ensures InOrder(Mirror(t)) == Reverse(InOrder(t))
  {
    match t
    case Nil =>
    case Node(v, l, r) =>
      MirrorInOrder(l);
      MirrorInOrder(r);
      assert Reverse([v]) == [v];
      ReverseConcat(InOrder(l) + [v], InOrder(r));
      ReverseConcat(InOrder(l), [v]);
  }

  lemma {:induction false} MirrorPreOrder<T>(t: Tree<T>)
    ensures PreOrder(Mirror(t)) == Reverse(PostOrder(t))
  {
    match t
    case Nil =>
    case Node(v, l, r) =>
      MirrorPreOrder(l);
      MirrorPreOrder(r);
      assert Reverse([v]) == [v];
      ReverseConcat(PostOrder(l) + PostOrder(r), [v]);
      ReverseConcat(PostOrder(l), PostOrder(r));
  }

  lemma {:induction false} MirrorPostOrder<T>(t: Tree<T>)
    ensures PostOrder(Mirror(t)) == Reverse(PreOrder(t))
  {
    match t
    case Nil =>
    case Node(v, l, r) =>
      MirrorPostOrder(l);
      MirrorPostOrder(r);
      assert Reverse([v]) == [v];
      ReverseConcat([v] + PreOrder(l), PreOrder(r));
      ReverseConcat([v], PreOrder(l));
  }
}
