# Binary tree roll, in Dafny

This project models the binary tree roll library: `BinaryTreeNode`, the
clockwise and counterclockwise roll in `BinaryTreeRollUtils`, and the
traversal listings and sideways drawing of `BinaryTreePrinter`. It proves
what the rolls do to a tree's traversal orders.

A roll turns a tree on its side. The clockwise roll makes the bottom of the
left spine the new root. Every left-spine node becomes the right child of
its former left child. Each node's rolled right subtree hangs on its left.
The counterclockwise roll is the left/right mirror image.

Modules:

- `BinaryTree` (`binary_tree.dfy`): the node structure as an immutable
  `Tree<T>`, where `Nil` is a `null` link. It also holds `copy`, `equals`,
  `isLeaf` and an abstract `hashCode`.
- `NodeObjects` (`node_objects.dfy`): the node as a heap object. It covers
  the reference-level promises: `copy` allocates only new nodes, `equals`
  has an identity shortcut and a `null` case, and the setters are framed.
- `Traversals` (`traversals.dfy`): pre-, in- and post-order as sequences,
  and how mirroring a tree changes them.
- `RollUtils` (`roll.dfy`): the roll itself, as a pure function.
  - It gives the net effect of the in-place sweep of `rollCW`/`rollCCW`.
    An accumulator carries the part of the spine that is already rolled,
    and the file's header comment explains how this matches the Java steps.
  - `RollClockwise` and `RollCounterClockwise` are the public entry points,
    and their contracts state the traversal laws. `Roll` models the private
    `roll` they share: the null check, the copy and the sweep.
  - The two rolls undo each other: rolling one way and then the other
    gives back the original tree.
  - `SettledCW`/`SettledCCW` follow the settling branches of the sweep.
    They show that exactly one node reaches the `parent == null` branch.
- `TreePrinter` (`printer.dfy`): the text of a traversal listing and the
  rows of the drawing. An independent description says where each node is
  drawn: by its path from the root, in reverse in-order.
- `Example` (`example.dfy`): the demo tree of `Example.java`. The three
  drawings and the nine traversals recorded in that file's closing comment
  are lemmas about the model. So is the first listing line: the recorded
  line plus the trailing space the code appends, which the comment shows
  trimmed.

`roll` rejects a null root with
`Objects.requireNonNull(root, "'root' cannot be null")`, which throws a
`NullPointerException` with that message; `RollError.NullRoot` carries it.

## Model

| member | source | states |
|---|---|---|
| RollUtils.Roll | src/BinaryTreeRollUtils.java:23-32 | a null root is rejected with the message "'root' cannot be null", and only a null root; otherwise the result is a non-null tree with as many nodes as the input |
| RollUtils.RollClockwise | src/BinaryTreeRollUtils.java:15-17 | fails exactly on a null root; otherwise the result's pre-order is the input's in-order, its in-order is the input's post-order, and its root holds the value at the bottom of the input's left spine |
| RollUtils.RollCounterClockwise | src/BinaryTreeRollUtils.java:19-21 | fails exactly on a null root; otherwise the result's in-order is the input's pre-order, its post-order is the input's in-order, and its root holds the value at the bottom of the input's right spine |
| NodeObjects.RollOnCopy | src/BinaryTreeRollUtils.java:23-32 | `roll` works on `root.copy()`: the working tree is well formed, newly allocated and spells the caller's tree, the result is the roll of the caller's tree, and the caller's tree is still well formed and spells what it spelled before |
| RollUtils.RollAcc | src/BinaryTreeRollUtils.java:34-52 | the clockwise sweep of a non-null subtree under an already rolled spine yields a non-null tree |
| RollUtils.RollCW | src/BinaryTreeRollUtils.java:34-52 | `rollCW` with a null parent yields a null tree exactly when it is given one |
| RollUtils.RollCcwAcc | src/BinaryTreeRollUtils.java:54-73 | the counterclockwise sweep of a non-null subtree under an already rolled spine yields a non-null tree |
| RollUtils.RollCCW | src/BinaryTreeRollUtils.java:54-73 | `rollCCW` with a null parent yields a null tree exactly when it is given one |
| RollUtils.RollAccPreOrder | src/BinaryTreeRollUtils.java:34-52 | rolling a subtree under an already rolled spine gives, in pre-order, the subtree's in-order followed by the spine's pre-order |
| RollUtils.RollCWPreOrder | src/BinaryTreeRollUtils.java:34-52 | the pre-order of the clockwise roll is the in-order of the input |
| RollUtils.RollAccInOrder | src/BinaryTreeRollUtils.java:34-52 | rolling a subtree under an already rolled spine gives, in in-order, the subtree's post-order followed by the spine's in-order |
| RollUtils.RollCWInOrder | src/BinaryTreeRollUtils.java:34-52 | the in-order of the clockwise roll is the post-order of the input |
| RollUtils.RollSizeCW | src/BinaryTreeRollUtils.java:34-52 | the clockwise roll keeps the node count and the multiset of values |
| RollUtils.RollCWRoot | src/BinaryTreeRollUtils.java:37-44 | the clockwise roll of a non-null tree is non-null, and its root is the bottom of the left spine, the first in-order value |
| RollUtils.MirrorLawAcc | src/BinaryTreeRollUtils.java:34-73 | the counterclockwise partial roll under a spine is the mirror image of the clockwise partial roll of the mirrored subtree under the mirrored spine |
| RollUtils.MirrorLaw | src/BinaryTreeRollUtils.java:34-73 | the counterclockwise roll is the mirror image of the clockwise roll of the mirror image |
| RollUtils.RollCCWInOrder | src/BinaryTreeRollUtils.java:54-73 | the in-order of the counterclockwise roll is the pre-order of the input |
| RollUtils.RollCCWPostOrder | src/BinaryTreeRollUtils.java:54-73 | the post-order of the counterclockwise roll is the in-order of the input |
| RollUtils.RollSizeCCW | src/BinaryTreeRollUtils.java:54-73 | the counterclockwise roll keeps the node count and the multiset of values |
| RollUtils.RollCCWRoot | src/BinaryTreeRollUtils.java:57-64 | the counterclockwise roll of a non-null tree is non-null, and its root is the bottom of the right spine, the last in-order value |
| RollUtils.CcwUndoesCwAcc | src/BinaryTreeRollUtils.java:34-73 | the counterclockwise sweep over a clockwise partial roll rebuilds the rolled subtree, with the nodes it had already collected hung under its left spine, and then resumes on the spine above |
| RollUtils.CcwUndoesCw | src/BinaryTreeRollUtils.java:34-73 | rolling counterclockwise undoes a clockwise roll |
| RollUtils.CwUndoesCcw | src/BinaryTreeRollUtils.java:34-73 | rolling clockwise undoes a counterclockwise roll |
| RollUtils.RollsAreInverse | src/BinaryTreeRollUtils.java:15-21 | for a non-null tree, `rollCounterClockwise` of `rollClockwise`'s result gives back the original tree, and so does the other order |
| RollUtils.SettledCW | src/BinaryTreeRollUtils.java:34-52 | at most one node of a clockwise sweep reaches the `parent == null` branch, and none does when the sweep starts with a non-null parent |
| RollUtils.SettledCCW | src/BinaryTreeRollUtils.java:54-73 | at most one node of a counterclockwise sweep reaches the `parent == null` branch, and none does when the sweep starts with a non-null parent |
| RollUtils.GuardedSlot | src/BinaryTreeRollUtils.java:26-44 | only an empty slot is set: a filled slot keeps its node, and an empty one ends up holding the first node that reaches the branch, or stays empty when none does |
| RollUtils.SingleRootCW | src/BinaryTreeRollUtils.java:41-48 | in the clockwise sweep of a non-null tree, exactly one node reaches the `parent == null` branch: the bottom of the left spine. The guarded slot therefore ends up holding the root of the rolled tree, and the guard never turns a node away |
| RollUtils.SingleRootCCW | src/BinaryTreeRollUtils.java:61-69 | the same for the counterclockwise sweep, with the bottom of the right spine |
| BinaryTree.IsLeaf | src/BinaryTreeNode.java:52-54 | a node is a leaf exactly when it is the only node of its subtree, that is, when both links are null |
| BinaryTree.Copy | src/BinaryTreeNode.java:56-63 | the copy is the same tree as the receiver |
| BinaryTree.CopyEquals | src/BinaryTreeNode.java:56-75 | `equals` relates a copy and its original, in both directions |
| BinaryTree.CopyKeepsAbsence | src/BinaryTreeNode.java:59-60 | a child of the copy is null exactly when the original's is, and the node count is kept |
| BinaryTree.Equals | src/BinaryTreeNode.java:65-75 | true exactly when both links spell the same tree: null matches only null, and nodes need equal values and pairwise equal children |
| BinaryTree.EqualsReflexive | src/BinaryTreeNode.java:67 | every tree equals itself |
| BinaryTree.EqualsImpliesEqualHash | src/BinaryTreeNode.java:77-80 | trees that `equals` relates hash equally, for any hash of the values and any combination of the three field hashes |
| NodeObjects.TreeOf | src/BinaryTreeNode.java:9-13 | reading a well-formed node's value and links recursively gives exactly the tree the node spells |
| NodeObjects.BinaryTreeNode.Leaf | src/BinaryTreeNode.java:21-23 | a new node with the given value and both links null is well formed, newly allocated, and spells a one-node tree |
| NodeObjects.BinaryTreeNode.Join | src/BinaryTreeNode.java:15-19 | a new node over two disjoint well-formed subtrees is well formed, owns exactly itself and the subtrees' nodes, and spells the tree with that value and those subtrees |
| NodeObjects.BinaryTreeNode.IsLeaf | src/BinaryTreeNode.java:52-54 | on a well-formed node, `isLeaf` agrees with the leaf test on the tree the node spells |
| NodeObjects.BinaryTreeNode.Copy | src/BinaryTreeNode.java:56-63 | the copy is well formed, consists of newly allocated objects only, spells the same tree, and has a null child exactly where the receiver has one |
| NodeObjects.BinaryTreeNode.Equals | src/BinaryTreeNode.java:65-75 | true exactly when the argument is non-null and spells the same tree as the receiver |
| NodeObjects.ObjectsEquals | src/BinaryTreeNode.java:72-74 | `Objects.equals` on two links is true exactly when they spell the same tree (both null included) |
| NodeObjects.BinaryTreeNode.SetValue | src/BinaryTreeNode.java:32-34 | sets the value and leaves both links as they were |
| NodeObjects.BinaryTreeNode.SetLeftChild | src/BinaryTreeNode.java:40-42 | sets the left link and leaves the value and the right link as they were |
| NodeObjects.BinaryTreeNode.SetRightChild | src/BinaryTreeNode.java:48-50 | sets the right link and leaves the value and the left link as they were |
| Traversals.PreOrder | src/BinaryTreePrinter.java:49-57 | the pre-order lists one entry per node |
| Traversals.InOrder | src/BinaryTreePrinter.java:59-67 | the in-order lists one entry per node |
| Traversals.PostOrder | src/BinaryTreePrinter.java:69-77 | the post-order lists one entry per node |
| Traversals.RootEndsTraversals | src/BinaryTreePrinter.java:49-77 | the pre-order starts with the root's value and the post-order ends with it |
| Traversals.PreOrderListsEveryNode | src/BinaryTreePrinter.java:49-57 | the pre-order lists every value of the tree exactly as often as it occurs |
| Traversals.InOrderListsEveryNode | src/BinaryTreePrinter.java:59-67 | the in-order lists every value of the tree exactly as often as it occurs |
| Traversals.PostOrderListsEveryNode | src/BinaryTreePrinter.java:69-77 | the post-order lists every value of the tree exactly as often as it occurs |
| Traversals.InOrderEnds | src/BinaryTreePrinter.java:59-67 | the in-order starts at the bottom of the left spine and ends at the bottom of the right spine |
| Traversals.MirrorInOrder | src/BinaryTreePrinter.java:59-67 | the in-order of the mirror image is the reversed in-order |
| Traversals.MirrorPreOrder | src/BinaryTreePrinter.java:49-77 | the pre-order of the mirror image is the reversed post-order |
| Traversals.MirrorPostOrder | src/BinaryTreePrinter.java:49-77 | the post-order of the mirror image is the reversed pre-order |
| TreePrinter.PadRight | src/BinaryTreePrinter.java:42 | `%1$-12s` keeps the text as its prefix, pads it with spaces to the field width, and never cuts it |
| TreePrinter.Joined | src/BinaryTreePrinter.java:49-77 | the values written one after another, each followed by a space, are empty exactly when there are no values, and take at least one character per value |
| TreePrinter.TraversalLine | src/BinaryTreePrinter.java:38-47 | a traversal line is longer than the traversal's name, and at least as long as the 12-character label plus one character per listed value |
| TreePrinter.PreOrderLine | src/BinaryTreePrinter.java:26-28 | the line `printPreOrder` prints starts with the padded label "PreOrder:   " and has at least one character per node after it; `TraversalLinesReadBack` reads the rest back into the pre-order |
| TreePrinter.InOrderLine | src/BinaryTreePrinter.java:30-32 | the line `printInOrder` prints starts with the padded label "InOrder:    " and has at least one character per node after it; `TraversalLinesReadBack` reads the rest back into the in-order |
| TreePrinter.PostOrderLine | src/BinaryTreePrinter.java:34-36 | the line `printPostOrder` prints starts with the padded label "PostOrder:  " and has at least one character per node after it; `TraversalLinesReadBack` reads the rest back into the post-order |
| TreePrinter.JoinedRoundTrip | src/BinaryTreePrinter.java:49-77 | values written one after another, each followed by a single space, split back at the spaces into exactly the rendered values, as long as no rendered value contains a space |
| TreePrinter.ListingShape | src/BinaryTreePrinter.java:38-47 | a traversal line starts with the name and a colon, padded with spaces to 12 characters, and the rest reads back into the rendered values in order |
| TreePrinter.Headers | src/BinaryTreePrinter.java:26-36 | the three padded labels are "PreOrder:   ", "InOrder:    " and "PostOrder:  " |
| TreePrinter.TraversalLinesReadBack | src/BinaryTreePrinter.java:26-77 | each of the three listings of a tree starts with its label and reads back into that traversal's rendered values |
| TreePrinter.SubTreeRows | src/BinaryTreePrinter.java:93-102 | `printSubTree` writes one row per node of the subtree, and each row's lead is at least 8 characters longer than the prefix it was given |
| TreePrinter.TreeRows | src/BinaryTreePrinter.java:79-91 | `printTree` writes one row per node; the root's row, which follows the rows of the right subtree, is the only row without a lead |
| TreePrinter.Render | src/BinaryTreePrinter.java:85-98 | the rows become text with at least one character per row, and the text ends in a line break when there is a row |
| TreePrinter.PrintTree | src/BinaryTreePrinter.java:79-91 | the text `printTree` hands to `println` has at least one character per node and ends in a line break; `PrintTreeLineCount` counts its lines, and the rows it renders are those `TreeRowsPlaced` places |
| TreePrinter.SubTreeRowsPlaced | src/BinaryTreePrinter.java:93-102 | the rows of a subtree are its nodes in reverse in-order, each led by the text its path from the root determines |
| TreePrinter.TreeRowsPlaced | src/BinaryTreePrinter.java:79-102 | the rows of the whole drawing are the nodes in reverse in-order, each led by the text its path determines; the root has no lead |
| TreePrinter.PlacementsReverseInOrder | src/BinaryTreePrinter.java:79-102 | the placed nodes are the tree's nodes in reverse in-order |
| TreePrinter.PrintTreeLayout | src/BinaryTreePrinter.java:79-102 | the drawing has one row per node, in reverse in-order, and a node at depth d has exactly 8·d characters before its value |
| TreePrinter.PrintTreeLineCount | src/BinaryTreePrinter.java:79-102 | the drawn text has exactly one line break per node, as long as no rendered value contains one |
| Example.DemoTraversals | src/Example.java:47-49 | the demo tree's pre-, in- and post-order are as recorded |
| Example.DemoDrawing | src/Example.java:39-45 | the demo tree is drawn as recorded, row by row |
| Example.DemoListing | src/Example.java:47 | the demo tree's pre-order listing is the recorded line plus the trailing space the code appends (the comment shows it trimmed) |
| Example.DemoRollClockwise | src/Example.java:51-57 | the clockwise roll of the demo tree is the recorded rolled tree |
| Example.DemoClockwiseDrawing | src/Example.java:51-57 | the clockwise roll of the demo tree is drawn as recorded |
| Example.DemoClockwiseTraversals | src/Example.java:59-61 | the traversals of the clockwise roll are as recorded |
| Example.DemoRollCounterClockwise | src/Example.java:63-69 | the counterclockwise roll of the demo tree is the recorded rolled tree |
| Example.DemoCounterClockwiseDrawing | src/Example.java:63-69 | the counterclockwise roll of the demo tree is drawn as recorded |
| Example.DemoCounterClockwiseTraversals | src/Example.java:71-73 | the traversals of the counterclockwise roll are as recorded |

## Left out

- The `ThreadLocal` slot `rolledRoot` and the thread-safety claim: concurrency plumbing. Within one thread the slot is modelled by `GuardedSlot`, and the roll returns the discovered root as a value.
- The reference-level, step-by-step relinking of `rollCW`/`rollCCW` on a shared heap: the model gives its net effect as a pure function. The branches that decide where each node settles are followed by `SettledCW`/`SettledCCW`.
- `PrintStream` handling, the `System.out` default, `getStream` and the final `println`: I/O. Only the text the printer builds is modelled.
- `Example.main` and `printInfo`: a demo that prints. Its tree and the outputs in the closing comment appear as lemmas in `Example`.
- The `getClass` comparison and the `Object` parameter of `equals`, and the raw generic types: the model compares nodes of one element type only.
- BinaryTree.EqualsImpliesEqualHash: the 32-bit arithmetic of `Objects.hash` and the values' own `hashCode` are parameters, so the lemma holds for every choice of them rather than for Java's particular one.
- RollUtils.RollWorksOnCopy: a helper that unfolds `Roll` on a non-null tree and states no property of its own. That `roll` leaves the caller's tree as it was is stated on the heap model by `NodeObjects.RollOnCopy`.
- BinaryTree.Hash: it has no contract of its own. The promise of `hashCode`, that trees `equals` relates hash equally, is `BinaryTree.EqualsImpliesEqualHash`.
- `String.valueOf` on a node value: an uninterpreted parameter `show`.
- Recursion depth and stack exhaustion: Dafny recursion is unbounded.
- `null` node values: `T` has no null; `Objects.equals` on values is `==`.
- The no-argument constructor: it leaves the value null, which has no counterpart in the model. The one-argument constructor is `NodeObjects.BinaryTreeNode.Leaf`.
- NodeObjects.BinaryTreeNode.Join: the Java three-argument constructor accepts any links, but `Join` requires two well-formed subtrees that share no object, because the heap model only describes well-formed trees. For the same reason `NodeObjects.BinaryTreeNode.Copy`, `NodeObjects.BinaryTreeNode.Equals`, `NodeObjects.ObjectsEquals` and `NodeObjects.RollOnCopy` require `Valid()` and cover tree-shaped object graphs only. The Java `copy`, `equals` and `roll` also accept object graphs with shared subtrees, and `copy` then unshares them.
- The Java `copy()` allocates the new node before copying the children, and `NodeObjects.BinaryTreeNode.Copy` copies the children first: the order of allocation is not observable in the result.
- The traversal listings, the drawing and `isLeaf` on a `null` node: in Java these fail with a `NullPointerException`. The model requires a node, and `Roll` is the only operation whose null case the code handles, so it is the only one with an error result.
- The setters in the immutable model: a `Tree` value cannot change. Their framing is stated on `NodeObjects.BinaryTreeNode`.
