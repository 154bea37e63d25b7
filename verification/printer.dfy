/**
 The text that the console printer builds (src/BinaryTreePrinter.java):
 the one-line listings of a traversal and the sideways drawing of a tree.

 Only the built text is modelled; writing it to a `PrintStream` is left
 out. `String.valueOf` on a node value is the parameter `show`.
 */
module TreePrinter {
  import opened BinaryTree
  import opened Traversals

  // ---------------------------------------------------------------------
  // Traversal listings: `printTraversal`
  // ---------------------------------------------------------------------

  /** Width of the `%1$-12s` field that holds the traversal's name. */
  const LabelWidth: nat := 12

  function Spaces(n: nat): (s: string)
    ensures |s| == n
    ensures forall i :: 0 <= i < n ==> s[i] == ' '
  {
    if n == 0 then "" else Spaces(n - 1) + " "
  }

  /** `String.format("%1$-" + width + "s", s)`: left-justified, padded with spaces, never cut. */
  function PadRight(s: string, width: nat): (r: string)
    ensures |r| == if |s| < width then width else |s|
    ensures r[..|s|] == s
    ensures forall i :: |s| <= i < |r| ==> r[i] == ' '
  {
    if |s| < width then s + Spaces(width - |s|) else s
  }

  /** Every value rendered and followed by a single space, as `printNodeValue(..).append(' ')` does. */
  function Joined<T>(vals: seq<T>, show: T -> string): (r: string)
    ensures vals == [] <==> r == []
    ensures |r| >= |vals|
  {
    if vals == [] then "" else show(vals[0]) + " " + Joined(vals[1..], show)
  }

  /** The line that `printTraversal` builds for the traversal called `name` listing `vals`. */
  function TraversalLine<T>(name: string, vals: seq<T>, show: T -> string): (r: string)
    ensures |r| >= LabelWidth && |r| > |name|
    ensures |r| >= LabelWidth + |vals|
  {
    PadRight(name + ":", LabelWidth) + Joined(vals, show)
  }

  /** The line `printPreOrder` prints: the padded label, then the pre-order values. */
  function PreOrderLine<T>(t: Tree<T>, show: T -> string): (r: string)
    requires t.Node?
    ensures |r| >= LabelWidth + Size(t)
    ensures r[..LabelWidth] == "PreOrder:   "
  {
    Headers();
    var head := PadRight("PreOrder:", LabelWidth);
    assert (head + Joined(PreOrder(t), show))[..LabelWidth] == head;
    TraversalLine("PreOrder", PreOrder(t), show)
  }

  /** The line `printInOrder` prints: the padded label, then the in-order values. */
  function InOrderLine<T>(t: Tree<T>, show: T -> string): (r: string)
    requires t.Node?
    ensures |r| >= LabelWidth + Size(t)
    ensures r[..LabelWidth] == "InOrder:    "
  {
    Headers();
    var head := PadRight("InOrder:", LabelWidth);
    assert (head + Joined(InOrder(t), show))[..LabelWidth] == head;
    TraversalLine("InOrder", InOrder(t), show)
  }

  /** The line `printPostOrder` prints: the padded label, then the post-order values. */
  function PostOrderLine<T>(t: Tree<T>, show: T -> string): (r: string)
    requires t.Node?
    ensures |r| >= LabelWidth + Size(t)
    ensures r[..LabelWidth] == "PostOrder:  "
  {
    Headers();
    var head := PadRight("PostOrder:", LabelWidth);
    assert (head + Joined(PostOrder(t), show))[..LabelWidth] == head;
    TraversalLine("PostOrder", PostOrder(t), show)
  }

  /**
   Splits text at single spaces: every space ends the word collected so far
   (which may be empty), and trailing text without a space is a last word.
   It reads a listing back into the rendered values.
   */
  function Words(s: string, current: string): seq<string>
  {
    if s == [] then
      (if current == [] then [] else [current])
    else if s[0] == ' ' then
      [current] + Words(s[1..], [])
    else
      Words(s[1..], current + [s[0]])
  }

  function Shown<T>(vals: seq<T>, show: T -> string): (r: seq<string>)
    ensures |r| == |vals|
    ensures forall i :: 0 <= i < |vals| ==> r[i] == show(vals[i])
  {
    seq(|vals|, i requires 0 <= i < |vals| => show(vals[i]))
  }

  lemma {:induction false} WordsOfWord(w: string, rest: string, current: string)
    requires ' ' !in w
    ensures Words(w + " " + rest, current) == [current + w] + Words(rest, [])
    decreases |w|
  {
    if w == [] {
      assert w + " " + rest == [' '] + rest;
      assert current + w == current;
    } else {
      assert (w + " " + rest)[1..] == w[1..] + " " + rest;
      WordsOfWord(w[1..], rest, current + [w[0]]);
      assert current + [w[0]] + w[1..] == current + w;
    }
  }

  /**
   A listing reads back into exactly the rendered values, in order, as long
   as no rendered value contains a space.
   */
  lemma {:induction false} JoinedRoundTrip<T>(vals: seq<T>, show: T -> string)
    requires forall i :: 0 <= i < |vals| ==> ' ' !in show(vals[i])
    ensures Words(Joined(vals, show), []) == Shown(vals, show)
    decreases |vals|
  {
    if vals != [] {
      WordsOfWord(show(vals[0]), Joined(vals[1..], show), []);
      JoinedRoundTrip(vals[1..], show);
      assert [] + show(vals[0]) == show(vals[0]);
    }
  }

  /**
   Each traversal line starts with the name and a colon, padded with spaces
   to the 12-character field, and the rest of the line reads back into the
   rendered values of the traversal.
   */
  lemma ListingShape<T>(name: string, vals: seq<T>, show: T -> string)
    requires |name| < LabelWidth
    requires forall v :: ' ' !in show(v)
    ensures TraversalLine(name, vals, show)[..|name| + 1] == name + ":"
    ensures TraversalLine(name, vals, show)[..LabelWidth] == PadRight(name + ":", LabelWidth)
    ensures forall i :: |name| + 1 <= i < LabelWidth ==> TraversalLine(name, vals, show)[i] == ' '
    ensures Words(TraversalLine(name, vals, show)[LabelWidth..], []) == Shown(vals, show)
  {
    var head := PadRight(name + ":", LabelWidth);
    assert TraversalLine(name, vals, show)[LabelWidth..] == Joined(vals, show);
    assert TraversalLine(name, vals, show)[..|name| + 1] == head[..|name| + 1];
    JoinedRoundTrip(vals, show);
  }

  lemma Headers()
    ensures PadRight("PreOrder:", LabelWidth) == "PreOrder:   "
    ensures PadRight("InOrder:", LabelWidth) == "InOrder:    "
    ensures PadRight("PostOrder:", LabelWidth) == "PostOrder:  "
  {
    assert Spaces(2) == "  ";
    assert Spaces(3) == "   ";
    assert Spaces(4) == "    ";
  }

  /** The three listings of a tree, read back, give its three traversals. */
  lemma TraversalLinesReadBack<T>(t: Tree<T>, show: T -> string)
    requires t.Node?
    requires forall v :: ' ' !in show(v)
    ensures PreOrderLine(t, show)[..LabelWidth] == "PreOrder:   "
    ensures InOrderLine(t, show)[..LabelWidth] == "InOrder:    "
    ensures PostOrderLine(t, show)[..LabelWidth] == "PostOrder:  "
    ensures Words(PreOrderLine(t, show)[LabelWidth..], []) == Shown(PreOrder(t), show)
    ensures Words(InOrderLine(t, show)[LabelWidth..], []) == Shown(InOrder(t), show)
    ensures Words(PostOrderLine(t, show)[LabelWidth..], []) == Shown(PostOrder(t), show)
  {
    Headers();
    ListingShape("PreOrder", PreOrder(t), show);
    ListingShape("InOrder", InOrder(t), show);
    ListingShape("PostOrder", PostOrder(t), show);
  }

  // ---------------------------------------------------------------------
  // The sideways drawing: `printTree` and `printSubTree`
  // ---------------------------------------------------------------------

  /** Connector in front of a right child (`"┌──"` followed by `"──── "`). */
  const RightArm: string := "┌────── "
  /** Connector in front of a left child. */
  const LeftArm: string := "└────── "
  /** Prefix segment that continues no vertical line. */
  const Blank: string := "        "
  /** Prefix segment that continues the vertical line towards a sibling side. */
  const Bar: string := "│       "

  /** One drawn line: everything before the value, and the value. */
  datatype Row<T> = Row(lead: string, value: T)

  /**
   `printSubTree(node, output, isRightChild, prefix)`: the right subtree
   above, then the node's own line, then the left subtree below.
   */
  function SubTreeRows<T>(n: Tree<T>, isRightChild: bool, prefix: string): (rows: seq<Row<T>>)
    requires n.Node?
    ensures |rows| == Size(n)
    ensures forall i :: 0 <= i < |rows| ==> |prefix| + 8 <= |rows[i].lead|
    decreases n
  {
    (if n.right.Node? then SubTreeRows(n.right, true, prefix + (if isRightChild then Blank else Bar)) else [])
    + [Row(prefix + (if isRightChild then RightArm else LeftArm), n.value)]
    + (if n.left.Node? then SubTreeRows(n.left, false, prefix + (if isRightChild then Bar else Blank)) else [])
  }

  /** `printTree(root)`: the root's line carries no lead. */
  function TreeRows<T>(t: Tree<T>): (rows: seq<Row<T>>)
    requires t.Node?
    ensures |rows| == Size(t)
    ensures forall i :: 0 <= i < |rows| ==> (rows[i].lead == [] <==> i == Size(t.right))
    ensures rows[Size(t.right)].value == t.value
  {
    (if t.right.Node? then SubTreeRows(t.right, true, "") else [])
    + [Row("", t.value)]
    + (if t.left.Node? then SubTreeRows(t.left, false, "") else [])
  }

  /** The text appended to the output: every row as lead, value and a line break. */
  function Render<T>(rows: seq<Row<T>>, show: T -> string): (r: string)
    ensures |r| >= |rows|
    ensures rows != [] ==> r[|r| - 1] == '\n'
  {
    if rows == [] then "" else rows[0].lead + show(rows[0].value) + "\n" + Render(rows[1..], show)
  }

  /** The text `printTree` hands to `println`. */
  function PrintTree<T>(t: Tree<T>, show: T -> string): (r: string)
    requires t.Node?
    ensures |r| >= Size(t)
    ensures r[|r| - 1] == '\n'
  {
    Render(TreeRows(t), show)
  }

  // An independent description of the drawing: where each node sits.

  datatype Dir = Left | Right

  /** A node's value and the directions taken from the root to reach it. */
  datatype Placement<T> = Placement(value: T, path: seq<Dir>)

  /** The nodes of `t` in reverse in-order (right subtree, node, left subtree), each with its path from the root. */
  function Placements<T>(t: Tree<T>, path: seq<Dir>): seq<Placement<T>>
  {
    match t
    case Nil => []
    case Node(v, l, r) => Placements(r, path + [Right]) + [Placement(v, path)] + Placements(l, path + [Left])
  }

  /**
   The 8-character segments in front of a node's connector: one per
   ancestor below the root, a bar where the path turns and blank where it
   goes on in the same direction.
   */
  function Segments(path: seq<Dir>): (s: string)
    ensures |path| > 0 ==> |s| == 8 * (|path| - 1)
  {
    if |path| <= 1 then ""
    else Segments(path[..|path| - 1]) + (if path[|path| - 2] != path[|path| - 1] then Bar else Blank)
  }

  /** What a node with the given path has in front of its value: nothing for the root. */
  function LeadOf(path: seq<Dir>): (s: string)
    ensures |s| == 8 * |path|
  {
    if path == [] then ""
    else Segments(path) + (if path[|path| - 1] == Right then RightArm else LeftArm)
  }

  function RowsOf<T>(ps: seq<Placement<T>>): (rows: seq<Row<T>>)
    ensures |rows| == |ps|
    ensures forall i :: 0 <= i < |ps| ==> rows[i] == Row(LeadOf(ps[i].path), ps[i].value)
  {
    seq(|ps|, i requires 0 <= i < |ps| => Row(LeadOf(ps[i].path), ps[i].value))
  }

  lemma RowsOfConcat<T>(a: seq<Placement<T>>, b: seq<Placement<T>>, c: seq<Placement<T>>)
    ensures RowsOf(a + b + c) == RowsOf(a) + RowsOf(b) + RowsOf(c)
  {
  }

  lemma RowsOfSingle<T>(p: Placement<T>)
    ensures RowsOf([p]) == [Row(LeadOf(p.path), p.value)]
  {
  }

  lemma SegmentsExtend(path: seq<Dir>, d: Dir)
    requires |path| > 0
    ensures Segments(path + [d]) == Segments(path) + (if path[|path| - 1] != d then Bar else Blank)
  {
    assert (path + [d])[..|path|] == path;
  }

  lemma {:induction false} SubTreeRowsPlaced<T>(n: Tree<T>, path: seq<Dir>)
    requires n.Node?
    requires |path| > 0
    ensures SubTreeRows(n, path[|path| - 1] == Right, Segments(path)) == RowsOf(Placements(n, path))
    decreases n
  {
    var isRight := path[|path| - 1] == Right;
    var prefix := Segments(path);
    var pr, pl := Placements(n.right, path + [Right]), Placements(n.left, path + [Left]);
    var own := [Placement(n.value, path)];
    var above := if n.right.Node? then SubTreeRows(n.right, true, prefix + (if isRight then Blank else Bar)) else [];
    var below := if n.left.Node? then SubTreeRows(n.left, false, prefix + (if isRight then Bar else Blank)) else [];
    var line := [Row(prefix + (if isRight then RightArm else LeftArm), n.value)];
    assert SubTreeRows(n, isRight, prefix) == above + line + below;
    assert above == RowsOf(pr) by {
      if n.right.Node? {
        SegmentsExtend(path, Right);
        assert (path + [Right])[|path|] == Right;
        SubTreeRowsPlaced(n.right, path + [Right]);
      }
    }
    assert below == RowsOf(pl) by {
      if n.left.Node? {
        SegmentsExtend(path, Left);
        assert (path + [Left])[|path|] == Left;
        SubTreeRowsPlaced(n.left, path + [Left]);
      }
    }
    assert line == RowsOf(own) by {
      RowsOfSingle(Placement(n.value, path));
      assert LeadOf(path) == prefix + (if isRight then RightArm else LeftArm);
    }
    assert Placements(n, path) == pr + own + pl;
    RowsOfConcat(pr, own, pl);
  }

  /**
   The drawing lists the nodes in reverse in-order, and the text in front of
   each value is determined by its path from the root: a connector for its
   side and one segment per ancestor below the root.
   */
  lemma TreeRowsPlaced<T>(t: Tree<T>)
    requires t.Node?
    ensures TreeRows(t) == RowsOf(Placements(t, []))
  {
    var pr, pl := Placements(t.right, [Right]), Placements(t.left, [Left]);
    var own := [Placement(t.value, [])];
    TreeRowsSplit(t);
    if t.right.Node? {
      SubTreeRowsPlaced(t.right, [Right]);
    }
    if t.left.Node? {
      SubTreeRowsPlaced(t.left, [Left]);
    }
    RowsOfConcat(pr, own, pl);
  }

  /** `printTree` and the placements, split at the root. */
  lemma TreeRowsSplit<T>(t: Tree<T>)
    requires t.Node?
    ensures TreeRows(t) == (if t.right.Node? then SubTreeRows(t.right, true, "") else [])
                           + [Row("", t.value)]
                           + (if t.left.Node? then SubTreeRows(t.left, false, "") else [])
    ensures Placements(t, []) == Placements(t.right, [Right]) + [Placement(t.value, [])] + Placements(t.left, [Left])
    ensures RowsOf([Placement(t.value, [])]) == [Row("", t.value)]
    ensures t.right.Nil? ==> RowsOf(Placements(t.right, [Right])) == []
    ensures t.left.Nil? ==> RowsOf(Placements(t.left, [Left])) == []
  {
    assert [] + [Right] == [Right] && [] + [Left] == [Left];
    RowsOfSingle(Placement(t.value, []));
  }

  lemma {:induction false} PlacementsReverseInOrder<T>(t: Tree<T>, path: seq<Dir>)
    ensures |Placements(t, path)| == Size(t)
    ensures forall i :: 0 <= i < Size(t) ==> Placements(t, path)[i].value == Reverse(InOrder(t))[i]
  {
    match t
    case Nil =>
    case Node(v, l, r) =>
      PlacementsReverseInOrder(l, path + [Left]);
      PlacementsReverseInOrder(r, path + [Right]);
      ReverseConcat(InOrder(l) + [v], InOrder(r));
      ReverseConcat(InOrder(l), [v]);
      assert Reverse([v]) == [v];
      assert Reverse(InOrder(t)) == Reverse(InOrder(r)) + [v] + Reverse(InOrder(l));
  }

  /**
   `printTree` draws one line per node, in reverse in-order, and a node
   whose path from the root has length d has exactly 8 * d characters in
   front of its value.
   */
  lemma PrintTreeLayout<T>(t: Tree<T>)
    requires t.Node?
    ensures |TreeRows(t)| == |Placements(t, [])| == Size(t)
    ensures forall i :: 0 <= i < Size(t) ==> TreeRows(t)[i].value == Reverse(InOrder(t))[i]
    ensures forall i :: 0 <= i < Size(t) ==>
              |TreeRows(t)[i].lead| == 8 * |Placements(t, [])[i].path|
  {
    TreeRowsPlaced(t);
    PlacementsReverseInOrder(t, []);
  }

  /** Number of line breaks in a text. */
  function LineBreaks(s: string): nat
  {
    if s == [] then 0 else (if s[0] == '\n' then 1 else 0) + LineBreaks(s[1..])
  }

  lemma {:induction false} LineBreaksConcat(a: string, b: string)
    ensures LineBreaks(a + b) == LineBreaks(a) + LineBreaks(b)
    decreases |a|
  {
    if a != [] {
      assert (a + b)[0] == a[0];
      assert (a + b)[1..] == a[1..] + b;
      LineBreaksConcat(a[1..], b);
    } else {
      assert a + b == b;
    }
  }

  lemma {:induction false} LineBreakFree(s: string)
    requires '\n' !in s
    ensures LineBreaks(s) == 0
    decreases |s|
  {
    if s != [] {
      LineBreakFree(s[1..]);
    }
  }

  lemma {:induction false} SegmentsLineBreakFree(path: seq<Dir>)
    ensures '\n' !in Segments(path)
    decreases |path|
  {
    if |path| > 1 {
      SegmentsLineBreakFree(path[..|path| - 1]);
    }
  }

  lemma {:induction false} RenderLines<T>(rows: seq<Row<T>>, show: T -> string)
    requires forall i :: 0 <= i < |rows| ==> '\n' !in rows[i].lead
    requires forall v :: '\n' !in show(v)
    ensures LineBreaks(Render(rows, show)) == |rows|
    decreases |rows|
  {
    if rows != [] {
      var head := rows[0].lead + show(rows[0].value);
      LineBreakFree(head);
      LineBreaksConcat(head, "\n");
      LineBreaksConcat(head + "\n", Render(rows[1..], show));
      RenderLines(rows[1..], show);
    }
  }

  lemma LeadOfLineBreakFree(path: seq<Dir>)
    ensures '\n' !in LeadOf(path)
  {
    if path != [] {
      SegmentsLineBreakFree(path);
      assert '\n' !in RightArm && '\n' !in LeftArm;
    }
  }

  lemma LeadsLineBreakFree<T>(t: Tree<T>)
    requires t.Node?
    ensures forall i :: 0 <= i < |TreeRows(t)| ==> '\n' !in TreeRows(t)[i].lead
  {
    TreeRowsPlaced(t);
    var ps := Placements(t, []);
    forall i | 0 <= i < |ps|
      ensures '\n' !in RowsOf(ps)[i].lead
    {
      LeadOfLineBreakFree(ps[i].path);
    }
  }

  /** The drawing is exactly one line per node when no rendered value contains a line break. */
  lemma PrintTreeLineCount<T>(t: Tree<T>, show: T -> string)
    requires t.Node?
    requires forall v :: '\n' !in show(v)
    ensures LineBreaks(PrintTree(t, show)) == Size(t)
  {
    LeadsLineBreakFree(t);
    PrintTreeLayout(t);
    RenderLines(TreeRows(t), show);
  }
}
