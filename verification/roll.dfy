/**
 The binary tree roll (src/BinaryTreeRollUtils.java).

 The Java code rolls a deep copy of the input in place. `rollCW(node,
 parent)` walks down the left spine first. It makes each spine node the
 right child of its former left child, and it hangs the rolled right
 subtree of each node on that node's left. The node at the bottom of the
 left spine becomes the new root. Here the net effect of that sweep is a
 pure function over `Tree`, written with an accumulator that carries the
 part of the left spine already rolled:

   RollAcc(Node(v, L, R), above)
     = let me := Node(v, RollCW(R), above) in
       if L == Nil then me else RollAcc(L, me)

 It corresponds to the Java sweep as follows:
 - `above` is the spine node whose left child `v` was. When the call on
   `v` returns into the call on `above`, that call runs
   `getLeftChild().setRightChild(root)` with `root` being `above`, which
   makes `above` the right child of `v`. In the same way the call on `v`
   makes `v` the right child of its former left child once the recursion
   into `L` returns.
 - The left child of `me` is `RollCW(R)`. In Java this is the call on the
   right subtree with `v` as parent: it settles the bottom of `R`'s left
   spine, makes it `v`'s left child and clears `v`'s right link.
 - When `L == Nil` the node has no left child. It is a settling point, and
   `me` is the root of the part rolled so far. At top level, where the Java
   parent is `null`, that node is stored as the rolled root.

 The counterclockwise roll is the same with every left and right exchanged.
 */
module RollUtils {
  import opened BinaryTree
  import opened Traversals

  /** Clockwise roll of the subtree `t`, with `above` the already rolled part of the spine above it. */
  function RollAcc<T>(t: Tree<T>, above: Tree<T>): (r: Tree<T>)
    requires t.Node?
    ensures r.Node?
    decreases t, 0
  {
    var me := Node(t.value, RollCW(t.right), above);
    if t.left.Nil? then me else RollAcc(t.left, me)
  }

  /** `rollCW` started with a null parent, on a possibly null link. */
  function RollCW<T>(t: Tree<T>): (r: Tree<T>)
    ensures r.Nil? <==> t.Nil?
    decreases t, 1
  {
    if t.Nil? then Nil else RollAcc(t, Nil)
  }

  /** Counterclockwise roll of `t`, with `above` the already rolled part of the right spine above it. */
  function RollCcwAcc<T>(t: Tree<T>, above: Tree<T>): (r: Tree<T>)
    requires t.Node?
    ensures r.Node?
    decreases t, 0
  {
    var me := Node(t.value, above, RollCCW(t.left));
    if t.right.Nil? then me else RollCcwAcc(t.right, me)
  }

  /** `rollCCW` started with a null parent, on a possibly null link. */
  function RollCCW<T>(t: Tree<T>): (r: Tree<T>)
    ensures r.Nil? <==> t.Nil?
    decreases t, 1
  {
    if t.Nil? then Nil else RollCcwAcc(t, Nil)
  }

  // ---------------------------------------------------------------------
  // The public entry points `rollClockwise` and `rollCounterClockwise`,
  // and the private `roll` they share
  // ---------------------------------------------------------------------

  /** `Objects.requireNonNull(root, "'root' cannot be null")` throws a NullPointerException with this message. */
  const NullRootMessage: string := "'root' cannot be null"

  datatype RollError = NullRoot(message: string)

  datatype Result<R> = Success(value: R) | Failure(error: RollError)

  /** The two sweeps that `roll` is handed. */
  datatype Variant = Clockwise | CounterClockwise

  /**
   The private `roll(root, variant)` behind both public entry points: a null
   root is rejected; otherwise the sweep runs on `root.copy()` and the root
   it discovers is returned.
   */
  function Roll<T>(root: Tree<T>, variant: Variant): (r: Result<Tree<T>>)
    ensures r.Failure? <==> root.Nil?
    ensures r.Failure? ==> r.error == NullRoot(NullRootMessage)
    ensures r.Success? ==> r.value.Node? && Size(r.value) == Size(root)
  {
    if root.Nil? then
      Failure(NullRoot(NullRootMessage))
    else
      var work := Copy(root);
      RollSizeCW(work);
      RollSizeCCW(work);
      match variant
      case Clockwise => Success(RollCW(work))
      case CounterClockwise => Success(RollCCW(work))
  }

  /**
   `rollClockwise`: the pre-order of the result is the in-order of the
   input and the in-order of the result is the post-order of the input; the
   new root holds the first in-order value.
   */
  function RollClockwise<T>(root: Tree<T>): (r: Result<Tree<T>>)
    ensures r.Failure? <==> root.Nil?
    ensures r.Failure? ==> r.error.message == NullRootMessage
    ensures r.Success? ==> PreOrder(r.value) == InOrder(root)
    ensures r.Success? ==> InOrder(r.value) == PostOrder(root)
    ensures r.Success? ==> r.value.Node? && r.value.value == LeftSpineBottom(root)
  {
    var r := Roll(root, Clockwise);
    if r.Success? then
      RollCWPreOrder(root);
      RollCWInOrder(root);
      RollCWRoot(root);
      r
    else
      r
  }

  /**
   `rollCounterClockwise`: the in-order of the result is the pre-order of
   the input and the post-order of the result is the in-order of the input;
   the new root holds the last in-order value.
   */
  function RollCounterClockwise<T>(root: Tree<T>): (r: Result<Tree<T>>)
    ensures r.Failure? <==> root.Nil?
    ensures r.Failure? ==> r.error.message == NullRootMessage
    ensures r.Success? ==> InOrder(r.value) == PreOrder(root)
    ensures r.Success? ==> PostOrder(r.value) == InOrder(root)
    ensures r.Success? ==> r.value.Node? && r.value.value == RightSpineBottom(root)
  {
    var r := Roll(root, CounterClockwise);
    if r.Success? then
      RollCCWInOrder(root);
      RollCCWPostOrder(root);
      RollCCWRoot(root);
      r
    else
      r
  }

  // ---------------------------------------------------------------------
  // Traversal laws of the clockwise roll
  // ---------------------------------------------------------------------

  lemma {:induction false} RollAccPreOrder<T>(t: Tree<T>, above: Tree<T>)
    requires t.Node?
    ensures PreOrder(RollAcc(t, above)) == InOrder(t) + PreOrder(above)
    decreases t, 0
  {
    var me := Node(t.value, RollCW(t.right), above);
    RollCWPreOrder(t.right);
    RollAccStep(t, above);
    if t.left.Node? {
      RollAccPreOrder(t.left, me);
      SpliceAfter(InOrder(t.left), [t.value] + InOrder(t.right), PreOrder(above));
    }
  }

  /** The pre-order of the clockwise roll is the in-order of the input. */
  lemma {:induction false} RollCWPreOrder<T>(t: Tree<T>)
    ensures PreOrder(RollCW(t)) == InOrder(t)
    decreases t, 1
  {
    if t.Node? {
      RollAccPreOrder(t, Nil);
    }
  }

  lemma {:induction false} RollAccInOrder<T>(t: Tree<T>, above: Tree<T>)
    requires t.Node?
    ensures InOrder(RollAcc(t, above)) == PostOrder(t) + InOrder(above)
    decreases t, 0
  {
    var me := Node(t.value, RollCW(t.right), above);
    RollCWInOrder(t.right);
    RollAccStep(t, above);
    if t.left.Node? {
      RollAccInOrder(t.left, me);
      SpliceAfter(PostOrder(t.left), PostOrder(t.right) + [t.value], InOrder(above));
    }
  }

  /** One unfolding of `RollAcc`, and of the traversals of the node it builds. */
  lemma RollAccStep<T>(t: Tree<T>, above: Tree<T>)
    requires t.Node?
    ensures RollAcc(t, above) == if t.left.Nil? then Node(t.value, RollCW(t.right), above)
                                 else RollAcc(t.left, Node(t.value, RollCW(t.right), above))
    ensures PreOrder(Node(t.value, RollCW(t.right), above))
              == [t.value] + PreOrder(RollCW(t.right)) + PreOrder(above)
    ensures InOrder(Node(t.value, RollCW(t.right), above))
              == InOrder(RollCW(t.right)) + [t.value] + InOrder(above)
    ensures InOrder(t) == InOrder(t.left) + ([t.value] + InOrder(t.right))
    ensures PostOrder(t) == PostOrder(t.left) + (PostOrder(t.right) + [t.value])
  {
  }

  /** Concatenation is associative, in the grouping the spine lemmas need. */
  lemma SpliceAfter<T>(a: seq<T>, b: seq<T>, c: seq<T>)
    ensures a + (b + c) == (a + b) + c
  {
  }

  /** The in-order of the clockwise roll is the post-order of the input. */
  lemma {:induction false} RollCWInOrder<T>(t: Tree<T>)
    ensures InOrder(RollCW(t)) == PostOrder(t)
    decreases t, 1
  {
    if t.Node? {
      RollAccInOrder(t, Nil);
    }
  }

  /** The clockwise roll keeps the node count and the multiset of values. */
  lemma RollSizeCW<T>(t: Tree<T>)
    ensures Size(RollCW(t)) == Size(t)
    ensures Values(RollCW(t)) == Values(t)
  {
    RollCWPreOrder(t);
    PreOrderListsEveryNode(RollCW(t));
    InOrderListsEveryNode(t);
  }

  /** The new clockwise root is the bottom of the left spine, the first in-order value. */
  lemma RollCWRoot<T>(t: Tree<T>)
    requires t.Node?
    ensures RollCW(t).Node?
    ensures RollCW(t).value == LeftSpineBottom(t) == InOrder(t)[0]
  {
    RollCWPreOrder(t);
    InOrderEnds(t);
  }

  // ---------------------------------------------------------------------
  // Mirror law, and the traversal laws of the counterclockwise roll
  // ---------------------------------------------------------------------

  lemma {:induction false} MirrorLawAcc<T>(t: Tree<T>, above: Tree<T>)
    requires t.Node?
    ensures RollCcwAcc(t, above) == Mirror(RollAcc(Mirror(t), Mirror(above)))
    decreases t, 0
  {
    var mt := Mirror(t);
    var me' := Node(t.value, RollCW(mt.right), Mirror(above));
    MirrorLaw(t.left);
    MirrorInvolution(RollCW(Mirror(t.left)));
    MirrorInvolution(above);
    var me := Node(t.value, above, RollCCW(t.left));
    assert Mirror(me') == me;
    if t.right.Node? {
      MirrorLawAcc(t.right, me);
    }
  }

  /** Mirror law: the counterclockwise roll is the mirror image of the clockwise roll of the mirror image. */
  lemma {:induction false} MirrorLaw<T>(t: Tree<T>)
    ensures RollCCW(t) == Mirror(RollCW(Mirror(t)))
    decreases t, 1
  {
    if t.Node? {
      MirrorLawAcc(t, Nil);
    }
  }

  /** The in-order of the counterclockwise roll is the pre-order of the input. */
  lemma RollCCWInOrder<T>(t: Tree<T>)
    ensures InOrder(RollCCW(t)) == PreOrder(t)
  {
    MirrorLaw(t);
    MirrorInOrder(RollCW(Mirror(t)));
    RollCWInOrder(Mirror(t));
    MirrorPostOrder(t);
    ReverseReverse(PreOrder(t));
  }

  /** The post-order of the counterclockwise roll is the in-order of the input. */
  lemma RollCCWPostOrder<T>(t: Tree<T>)
    ensures PostOrder(RollCCW(t)) == InOrder(t)
  {
    MirrorLaw(t);
    MirrorPostOrder(RollCW(Mirror(t)));
    RollCWPreOrder(Mirror(t));
    MirrorInOrder(t);
    ReverseReverse(InOrder(t));
  }

  /** The counterclockwise roll keeps the node count and the multiset of values. */
  lemma RollSizeCCW<T>(t: Tree<T>)
    ensures Size(RollCCW(t)) == Size(t)
    ensures Values(RollCCW(t)) == Values(t)
  {
    RollCCWInOrder(t);
    InOrderListsEveryNode(RollCCW(t));
    PreOrderListsEveryNode(t);
  }

  /** The new counterclockwise root is the bottom of the right spine, the last in-order value. */
  lemma RollCCWRoot<T>(t: Tree<T>)
    requires t.Node?
    ensures RollCCW(t).Node?
    ensures RollCCW(t).value == RightSpineBottom(t) == InOrder(t)[Size(t) - 1]
  {
    RollCCWPostOrder(t);
    InOrderEnds(t);
  }

  // ---------------------------------------------------------------------
  // The two rolls undo each other
  // ---------------------------------------------------------------------

  /** `t` with `below` hung under the bottom node of its left spine. */
  function HangBelow<T>(t: Tree<T>, below: Tree<T>): Tree<T>
    requires t.Node?
  {
    Node(t.value, if t.left.Nil? then below else HangBelow(t.left, below), t.right)
  }

  /** The counterclockwise sweep resumed on the rolled spine `above`, if there is one. */
  function ResumeCcw<T>(above: Tree<T>, done: Tree<T>): Tree<T>
  {
    if above.Nil? then done else RollCcwAcc(above, done)
  }

  /**
   The counterclockwise sweep of a clockwise partial roll first rebuilds
   the subtree that was rolled, and then carries on into the spine above it.
   */
  lemma {:induction false} CcwUndoesCwAcc<T>(t: Tree<T>, above: Tree<T>, below: Tree<T>)
    requires t.Node?
    ensures RollCcwAcc(RollAcc(t, above), below) == ResumeCcw(above, HangBelow(t, below))
    decreases t, 0
  {
    var me := Node(t.value, RollCW(t.right), above);
    CcwUndoesCw(t.right);
    if t.left.Node? {
      CcwUndoesCwAcc(t.left, me, below);
      assert RollCcwAcc(me, HangBelow(t.left, below)) ==
             ResumeCcw(above, Node(t.value, HangBelow(t.left, below), t.right));
    } else {
      assert RollCcwAcc(me, below) == ResumeCcw(above, Node(t.value, below, t.right));
    }
  }

  lemma {:induction false} HangNothing<T>(t: Tree<T>)
    requires t.Node?
    ensures HangBelow(t, Nil) == t
  {
    if t.left.Node? {
      HangNothing(t.left);
    }
  }

  /** Rolling counterclockwise undoes a clockwise roll. */
  lemma {:induction false} CcwUndoesCw<T>(t: Tree<T>)
    ensures RollCCW(RollCW(t)) == t
    decreases t, 1
  {
    if t.Node? {
      CcwUndoesCwAcc(t, Nil, Nil);
      HangNothing(t);
      assert RollCCW(RollCW(t)) == RollCcwAcc(RollAcc(t, Nil), Nil);
    }
  }

  /** Rolling clockwise undoes a counterclockwise roll: the mirror image of the above. */
  lemma CwUndoesCcw<T>(t: Tree<T>)
    ensures RollCW(RollCCW(t)) == t
  {
    var m := Mirror(t);
    var u := RollCW(m);
    MirrorLaw(t);
    MirrorLaw(u);
    MirrorInvolution(RollCW(Mirror(u)));
    CcwUndoesCw(m);
    MirrorInvolution(t);
    assert RollCW(Mirror(u)) == Mirror(RollCCW(u));
  }

  /**
   The public rolls are inverse to each other: rolling a non-null tree one
   way and the result the other way gives back the original tree.
   */
  lemma RollsAreInverse<T>(root: Tree<T>)
    requires root.Node?
    ensures RollCounterClockwise(RollClockwise(root).value) == Success(root)
    ensures RollClockwise(RollCounterClockwise(root).value) == Success(root)
  {
    RollWorksOnCopy(root, Clockwise);
    RollWorksOnCopy(root, CounterClockwise);
    RollWorksOnCopy(RollCW(root), CounterClockwise);
    RollWorksOnCopy(RollCCW(root), Clockwise);
    CcwUndoesCw(root);
    CwUndoesCcw(root);
  }

  // ---------------------------------------------------------------------
  // The settling branch and the single-root guarantee
  // ---------------------------------------------------------------------

  /**
   The values of the nodes that reach the `parent == null` settling branch
   of `rollCW(t, parent)`, in the order the sweep reaches them. It follows
   the Java branches: a node with a left child passes `parent` on to the
   call on that child; a node without one settles; and the call on the
   right subtree always has a non-null parent. At most one node settles
   with a null parent, and none does when the sweep starts with a parent.
   */
  function SettledCW<T>(t: Tree<T>, hasParent: bool): (s: seq<T>)
    ensures |s| <= 1
    ensures hasParent ==> s == []
  {
    match t
    case Nil => []
    case Node(v, l, r) =>
      (if l.Node? then SettledCW(l, hasParent) else if hasParent then [] else [v])
      + SettledCW(r, true)
  }

  /** The same for `rollCCW`, where the right child decides. */
  function SettledCCW<T>(t: Tree<T>, hasParent: bool): (s: seq<T>)
    ensures |s| <= 1
    ensures hasParent ==> s == []
  {
    match t
    case Nil => []
    case Node(v, l, r) =>
      (if r.Node? then SettledCCW(r, hasParent) else if hasParent then [] else [v])
      + SettledCCW(l, true)
  }

  /**
   The `rolledRoot` slot after the nodes `settled` have reached the guarded
   store `if (rolledRoot.get() == null) rolledRoot.set(root)` one after
   another, starting from `slot`. The first settling node into an empty
   slot stays there; a filled slot is never overwritten.
   */
  function GuardedSlot<T>(settled: seq<T>, slot: Option<T>): (r: Option<T>)
    ensures slot.Some? ==> r == slot
    ensures slot.None? && settled != [] ==> r == Some(settled[0])
    ensures slot.None? && settled == [] ==> r.None?
    decreases |settled|
  {
    if settled == [] then slot
    else GuardedSlot(settled[1..], if slot.None? then Some(settled[0]) else slot)
  }

  datatype Option<T> = None | Some(value: T)

  /**
   Exactly one node of a non-null tree reaches the settling branch with a
   null parent, so the double-assignment guard never rejects one. That node
   is the bottom of the left spine, which is the root of the rolled tree;
   the slot, emptied before the sweep, ends up holding it.
   */
  lemma {:induction false} SingleRootCW<T>(t: Tree<T>)
    requires t.Node?
    ensures SettledCW(t, false) == [LeftSpineBottom(t)]
    ensures RollCW(t).Node?
    ensures GuardedSlot(SettledCW(t, false), None) == Some(RollCW(t).value)
  {
    if t.left.Node? {
      SingleRootCW(t.left);
    }
    RollCWRoot(t);
  }

  /** The same for the counterclockwise roll, whose root is the bottom of the right spine. */
  lemma {:induction false} SingleRootCCW<T>(t: Tree<T>)
    requires t.Node?
    ensures SettledCCW(t, false) == [RightSpineBottom(t)]
    ensures RollCCW(t).Node?
    ensures GuardedSlot(SettledCCW(t, false), None) == Some(RollCCW(t).value)
  {
    if t.right.Node? {
      SingleRootCCW(t.right);
    }
    RollCCWRoot(t);
  }

  /**
   The sweep runs on `root.copy()`, which equals the caller's tree, so the
   result depends on the caller's tree only and the tree itself is an
   immutable value that no roll can change.
   */
  lemma RollWorksOnCopy<T>(root: Tree<T>, variant: Variant)
    requires root.Node?
    ensures Roll(root, variant).value ==
            (if variant == Clockwise then RollCW(root) else RollCCW(root))
  {
  }
}
