/**
 The sample tree of src/Example.java and the outputs recorded in its
 closing comment, stated as lemmas about the model.
 */
module Example {
  import opened BinaryTree
  import opened Traversals
  import opened RollUtils
  import opened TreePrinter

  function Leaf(v: int): Tree<int>
  {
    Node(v, Nil, Nil)
  }

  /** Root 1; 2 on the left with 4 below it and 7 right of 4; 3 on the right with children 5 and 6. */
  const Demo: Tree<int> := Node(1, Node(2, Node(4, Nil, Leaf(7)), Nil), Node(3, Leaf(5), Leaf(6)))

  /** The clockwise roll of the demo tree, as drawn in the comment. */
  const DemoCW: Tree<int> := Node(4, Leaf(7), Node(2, Nil, Node(1, Node(5, Nil, Node(3, Leaf(6), Nil)), Nil)))

  /** The counterclockwise roll of the demo tree, as drawn in the comment. */
  const DemoCCW: Tree<int> := Node(6, Node(3, Node(1, Nil, Node(2, Nil, Node(7, Leaf(4), Nil))), Leaf(5)), Nil)

  /** Decimal rendering of the one-digit values used here. */
  function Digit(v: int): string
  {
    if 0 <= v < 10 then [('0' as int + v) as char] else "?"
  }

  lemma DemoTraversals()
    ensures PreOrder(Demo) == [1, 2, 4, 7, 3, 5, 6]
    ensures InOrder(Demo) == [4, 7, 2, 1, 5, 3, 6]
    ensures PostOrder(Demo) == [7, 4, 2, 5, 6, 3, 1]
  {
    assert PreOrder(Node(2, Node(4, Nil, Leaf(7)), Nil)) == [2, 4, 7];
    assert InOrder(Node(2, Node(4, Nil, Leaf(7)), Nil)) == [4, 7, 2];
    assert PostOrder(Node(2, Node(4, Nil, Leaf(7)), Nil)) == [7, 4, 2];
  }

  lemma DemoRollClockwise()
    ensures RollClockwise(Demo) == Success(DemoCW)
  {
  }

  lemma DemoClockwiseTraversals()
    ensures PreOrder(DemoCW) == [4, 7, 2, 1, 5, 3, 6]
    ensures InOrder(DemoCW) == [7, 4, 2, 5, 6, 3, 1]
    ensures PostOrder(DemoCW) == [7, 6, 3, 5, 1, 2, 4]
  {
    var n1 := Node(1, Node(5, Nil, Node(3, Leaf(6), Nil)), Nil);
    assert PreOrder(n1) == [1, 5, 3, 6];
    assert InOrder(n1) == [5, 6, 3, 1];
    assert PostOrder(n1) == [6, 3, 5, 1];
  }

  lemma DemoRollCounterClockwise()
    ensures RollCounterClockwise(Demo) == Success(DemoCCW)
  {
    var n4 := Node(4, Nil, Leaf(7));
    var n2 := Node(2, n4, Nil);
    assert RollCCW(Leaf(5)) == Leaf(5);
    assert RollCCW(n4) == Node(7, Leaf(4), Nil);
    assert RollCCW(n2) == Node(2, Nil, Node(7, Leaf(4), Nil));
    var me1 := Node(1, Nil, RollCCW(n2));
    assert RollCCW(Demo) == RollCcwAcc(Node(3, Leaf(5), Leaf(6)), me1);
  }

  lemma DemoCounterClockwiseTraversals()
    ensures PreOrder(DemoCCW) == [6, 3, 1, 2, 7, 4, 5]
    ensures InOrder(DemoCCW) == [1, 2, 4, 7, 3, 5, 6]
    ensures PostOrder(DemoCCW) == [4, 7, 2, 1, 5, 3, 6]
  {
    var n1 := Node(1, Nil, Node(2, Nil, Node(7, Leaf(4), Nil)));
    assert PreOrder(n1) == [1, 2, 7, 4];
    assert InOrder(n1) == [1, 2, 4, 7];
    assert PostOrder(n1) == [4, 7, 2, 1];
  }

  lemma DemoRightRows()
    ensures SubTreeRows(Node(3, Leaf(5), Leaf(6)), true, "") ==
            [Row(Blank + RightArm, 6), Row(RightArm, 3), Row(Bar + LeftArm, 5)]
  {
    assert "" + Blank == Blank && "" + Bar == Bar && "" + RightArm == RightArm;
    assert SubTreeRows(Leaf(6), true, Blank) == [Row(Blank + RightArm, 6)];
    assert SubTreeRows(Leaf(5), false, Bar) == [Row(Bar + LeftArm, 5)];
  }

  lemma DemoLeftRows()
    ensures SubTreeRows(Node(2, Node(4, Nil, Leaf(7)), Nil), false, "") ==
            [Row(LeftArm, 2), Row(Blank + Bar + RightArm, 7), Row(Blank + LeftArm, 4)]
  {
    assert "" + Blank == Blank && "" + LeftArm == LeftArm;
    assert SubTreeRows(Leaf(7), true, Blank + Bar) == [Row(Blank + Bar + RightArm, 7)];
    assert SubTreeRows(Node(4, Nil, Leaf(7)), false, Blank) ==
           [Row(Blank + Bar + RightArm, 7), Row(Blank + LeftArm, 4)];
  }

  /** The drawing of the demo tree, line by line: the text in front of each value, and the value. */
  lemma DemoDrawing()
    ensures TreeRows(Demo) == [
      Row("        ┌────── ", 6),
      Row("┌────── ", 3),
      Row("│       └────── ", 5),
      Row("", 1),
      Row("└────── ", 2),
      Row("        │       ┌────── ", 7),
      Row("        └────── ", 4)]
  {
    DemoRightRows();
    DemoLeftRows();
    assert Blank + RightArm == "        ┌────── ";
    assert Bar + LeftArm == "│       └────── ";
    assert Blank + Bar + RightArm == "        │       ┌────── ";
    assert Blank + LeftArm == "        └────── ";
  }

  lemma DemoClockwiseRightRows()
    ensures SubTreeRows(Node(2, Nil, Node(1, Node(5, Nil, Node(3, Leaf(6), Nil)), Nil)), true, "") ==
            [Row(Blank + RightArm, 1),
             Row(Blank + Bar + Bar + RightArm, 3),
             Row(Blank + Bar + Bar + Bar + LeftArm, 6),
             Row(Blank + Bar + LeftArm, 5),
             Row(RightArm, 2)]
  {
    var n3 := Node(3, Leaf(6), Nil);
    var n5 := Node(5, Nil, n3);
    assert "" + Blank == Blank && "" + RightArm == RightArm;
    assert SubTreeRows(n3, true, Blank + Bar + Bar) ==
           [Row(Blank + Bar + Bar + RightArm, 3), Row(Blank + Bar + Bar + Bar + LeftArm, 6)];
    assert SubTreeRows(n5, false, Blank + Bar) ==
           [Row(Blank + Bar + Bar + RightArm, 3), Row(Blank + Bar + Bar + Bar + LeftArm, 6),
            Row(Blank + Bar + LeftArm, 5)];
    assert SubTreeRows(Node(1, n5, Nil), true, Blank) ==
           [Row(Blank + RightArm, 1), Row(Blank + Bar + Bar + RightArm, 3),
            Row(Blank + Bar + Bar + Bar + LeftArm, 6), Row(Blank + Bar + LeftArm, 5)];
  }

  /** The leads of the clockwise drawing, as the characters of the recorded lines. */
  lemma DemoClockwiseLeadsSpelledOut()
    ensures Blank + RightArm == "        ┌────── "
    ensures Blank + Bar + Bar + RightArm == "        │       │       ┌────── "
    ensures Blank + Bar + Bar + Bar + LeftArm == "        │       │       │       └────── "
    ensures Blank + Bar + LeftArm == "        │       └────── "
  {
    assert Blank + Bar == "        │       ";
    assert Blank + Bar + Bar == "        │       │       ";
    assert Blank + Bar + Bar + Bar == "        │       │       │       ";
  }

  /** The drawing of the clockwise roll of the demo tree. */
  lemma DemoClockwiseDrawing()
    ensures TreeRows(DemoCW) == [
      Row("        ┌────── ", 1),
      Row("        │       │       ┌────── ", 3),
      Row("        │       │       │       └────── ", 6),
      Row("        │       └────── ", 5),
      Row("┌────── ", 2),
      Row("", 4),
      Row("└────── ", 7)]
  {
    DemoClockwiseRightRows();
    DemoClockwiseLeadsSpelledOut();
    assert "" + LeftArm == LeftArm;
    assert SubTreeRows(Leaf(7), false, "") == [Row(LeftArm, 7)];
  }

  lemma DemoCounterClockwiseLeftRows()
    ensures SubTreeRows(Node(1, Nil, Node(2, Nil, Node(7, Leaf(4), Nil))), false, Blank) ==
            [Row(Blank + Bar + Blank + RightArm, 7),
             Row(Blank + Bar + Blank + Bar + LeftArm, 4),
             Row(Blank + Bar + RightArm, 2),
             Row(Blank + LeftArm, 1)]
  {
    var n7 := Node(7, Leaf(4), Nil);
    assert SubTreeRows(n7, true, Blank + Bar + Blank) ==
           [Row(Blank + Bar + Blank + RightArm, 7), Row(Blank + Bar + Blank + Bar + LeftArm, 4)];
    assert SubTreeRows(Node(2, Nil, n7), true, Blank + Bar) ==
           [Row(Blank + Bar + Blank + RightArm, 7), Row(Blank + Bar + Blank + Bar + LeftArm, 4),
            Row(Blank + Bar + RightArm, 2)];
  }

  /** The leads of the counterclockwise drawing, as the characters of the recorded lines. */
  lemma DemoCounterClockwiseLeadsSpelledOut()
    ensures Bar + RightArm == "│       ┌────── "
    ensures Blank + Bar + Blank + RightArm == "        │               ┌────── "
    ensures Blank + Bar + Blank + Bar + LeftArm == "        │               │       └────── "
    ensures Blank + Bar + RightArm == "        │       ┌────── "
    ensures Blank + LeftArm == "        └────── "
  {
    assert Blank + Bar == "        │       ";
    assert Blank + Bar + Blank == "        │               ";
    assert Blank + Bar + Blank + Bar == "        │               │       ";
  }

  /** The drawing of the counterclockwise roll of the demo tree. */
  lemma DemoCounterClockwiseDrawing()
    ensures TreeRows(DemoCCW) == [
      Row("", 6),
      Row("│       ┌────── ", 5),
      Row("└────── ", 3),
      Row("        │               ┌────── ", 7),
      Row("        │               │       └────── ", 4),
      Row("        │       ┌────── ", 2),
      Row("        └────── ", 1)]
  {
    var n1 := Node(1, Nil, Node(2, Nil, Node(7, Leaf(4), Nil)));
    DemoCounterClockwiseLeftRows();
    DemoCounterClockwiseLeadsSpelledOut();
    assert "" + Bar == Bar && "" + Blank == Blank && "" + LeftArm == LeftArm;
    assert SubTreeRows(Leaf(5), true, Bar) == [Row(Bar + RightArm, 5)];
    assert SubTreeRows(Node(3, n1, Leaf(5)), false, "") ==
           [Row(Bar + RightArm, 5), Row(LeftArm, 3)] + SubTreeRows(n1, false, Blank);
  }

  lemma JoinedCons<T>(v: T, rest: seq<T>, show: T -> string)
    ensures Joined([v] + rest, show) == show(v) + " " + Joined(rest, show)
  {
    assert ([v] + rest)[1..] == rest;
  }

  lemma DemoJoined()
    ensures Joined([1, 2, 4, 7, 3, 5, 6], Digit) == "1 2 4 7 3 5 6 "
  {
    DemoJoinedFrom2();
    JoinedCons(1, [2, 4, 7, 3, 5, 6], Digit);
    assert Digit(1) == "1";
  }

  lemma DemoJoinedFrom2()
    ensures Joined([2, 4, 7, 3, 5, 6], Digit) == "2 4 7 3 5 6 "
  {
    DemoJoinedFrom4();
    JoinedCons(2, [4, 7, 3, 5, 6], Digit);
    assert Digit(2) == "2";
  }

  lemma DemoJoinedFrom4()
    ensures Joined([4, 7, 3, 5, 6], Digit) == "4 7 3 5 6 "
  {
    DemoJoinedFrom7();
    JoinedCons(4, [7, 3, 5, 6], Digit);
    assert Digit(4) == "4";
  }

  lemma DemoJoinedFrom7()
    ensures Joined([7, 3, 5, 6], Digit) == "7 3 5 6 "
  {
    JoinedCons(6, [], Digit);
    JoinedCons(5, [6], Digit);
    JoinedCons(3, [5, 6], Digit);
    JoinedCons(7, [3, 5, 6], Digit);
    assert Digit(7) == "7" && Digit(3) == "3" && Digit(5) == "5" && Digit(6) == "6";
  }

  lemma DemoListing()
    ensures PreOrderLine(Demo, Digit) == "PreOrder:   " + "1 2 4 7 3 5 6 "
  {
    var vals, text := [1, 2, 4, 7, 3, 5, 6], "1 2 4 7 3 5 6 ";
    assert PreOrder(Demo) == vals by { DemoTraversals(); }
    assert Joined(vals, Digit) == text by { DemoJoined(); }
    PreOrderListing(Demo, Digit, vals, text);
  }

  /** A pre-order listing is the padded label followed by the values the traversal joins. */
  lemma PreOrderListing<T>(t: Tree<T>, show: T -> string, vals: seq<T>, text: string)
    requires t.Node? && PreOrder(t) == vals && Joined(vals, show) == text
    ensures PreOrderLine(t, show) == "PreOrder:   " + text
  {
    Headers();
  }
}
