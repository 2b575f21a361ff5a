/**
 * The SGF writer (leelawatcher/sgf/SGFbuilder.java): the move tree printed
 * as nested SGF sequences, and the file framing around it. The builder
 * object holds no state, so its two operations are module-level methods.
 */
module Sgf {
  import opened Points
  import opened MoveTree
  import opened Games

  /** Every child index lies after its parent and inside the arena. */
  predicate Shaped(nodes: seq<Node>) {
    forall i | 0 <= i < |nodes| :: GameTree.ChildrenAfter(i, nodes[i].children, |nodes|)
  }

  lemma ChildAfter(nodes: seq<Node>, i: nat, j: nat)
    requires Shaped(nodes) && i < |nodes| && j < |nodes[i].children|
    ensures i < nodes[i].children[j] < |nodes|
  {
    assert GameTree.ChildrenAfter(i, nodes[i].children, |nodes|);
  }

  /** What SGFprintMoves returns for the node at index i. */
  function Moves(nodes: seq<Node>, i: nat): string
    requires Shaped(nodes) && i < |nodes|
    decreases |nodes| - i, 1
  {
    if |nodes[i].children| == 0 then ";" + NodeText(nodes[i])
    else Iterations(nodes, i, |nodes[i].children|)
  }

  /** The text the first k rounds of the loop over the children append. */
  function Iterations(nodes: seq<Node>, i: nat, k: nat): string
    requires Shaped(nodes) && i < |nodes| && k <= |nodes[i].children|
    decreases |nodes| - i, 0, k
  {
    if k == 0 then "" else Iterations(nodes, i, k - 1) + Round(nodes, i, k - 1)
  }

  /**
   * Round j: the node's own text before the first child (unless it is the
   * root), then the child's text, in parentheses when there are several.
   */
  function Round(nodes: seq<Node>, i: nat, j: nat): string
    requires Shaped(nodes) && i < |nodes| && j < |nodes[i].children|
    decreases |nodes| - i, 0, j, 1
  {
    ChildAfter(nodes, i, j);
    var n := nodes[i];
    (if j == 0 && !n.IsRoot() then ";" + NodeText(n) else "")
    + Wrapped(nodes, i, j)
  }

  function Wrapped(nodes: seq<Node>, i: nat, j: nat): string
    requires Shaped(nodes) && i < |nodes| && j < |nodes[i].children|
    decreases |nodes| - i, 0, j, 0
  {
    ChildAfter(nodes, i, j);
    var many := |nodes[i].children| > 1;
    (if many then "(" else "") + Moves(nodes, nodes[i].children[j]) + (if many then ")" else "")
  }

  // ---- the reading of the printed text ----

  /** The node's own text as it appears before its children. */
  function Head(n: Node): string {
    if n.IsRoot() then "" else ";" + NodeText(n)
  }

  /** The children's texts in child order, each wrapped when there are several. */
  function Variations(nodes: seq<Node>, i: nat, k: nat): string
    requires Shaped(nodes) && i < |nodes| && k <= |nodes[i].children|
  {
    if k == 0 then "" else Variations(nodes, i, k - 1) + Wrapped(nodes, i, k - 1)
  }

  lemma {:induction false} IterationsSplit(nodes: seq<Node>, i: nat, k: nat)
    requires Shaped(nodes) && i < |nodes| && 0 < k <= |nodes[i].children|
    ensures Iterations(nodes, i, k) == Head(nodes[i]) + Variations(nodes, i, k)
  {
    if k == 1 {
      assert Iterations(nodes, i, 0) == "" && Variations(nodes, i, 0) == "";
    } else {
      IterationsSplit(nodes, i, k - 1);
    }
  }

  /**
   * A node with children prints its own text once, ahead of every child
   * (the root prints nothing of its own), and then each child's text in
   * child order, parenthesised exactly when there is more than one child.
   */
  lemma {:induction false} MovesWithChildren(nodes: seq<Node>, i: nat)
    requires Shaped(nodes) && i < |nodes| && |nodes[i].children| > 0
    ensures Moves(nodes, i) == Head(nodes[i]) + Variations(nodes, i, |nodes[i].children|)
  {
    IterationsSplit(nodes, i, |nodes[i].children|);
  }

  /** With a single child there are no parentheses. */
  lemma {:induction false} OneChild(nodes: seq<Node>, i: nat)
    requires Shaped(nodes) && i < |nodes| && |nodes[i].children| == 1
    ensures Moves(nodes, i) == Head(nodes[i]) + Moves(nodes, nodes[i].children[0])
  {
    MovesWithChildren(nodes, i);
    assert Variations(nodes, i, 0) == "";
  }

  function Paren(t: string): string { "(" + t + ")" }

  /** Two children become two parenthesised variations, in child order. */
  lemma {:induction false} TwoChildren(nodes: seq<Node>, i: nat)
    requires Shaped(nodes) && i < |nodes| && |nodes[i].children| == 2
    ensures Moves(nodes, i) == Head(nodes[i]) + Paren(Moves(nodes, nodes[i].children[0]))
                               + Paren(Moves(nodes, nodes[i].children[1]))
  {
    MovesWithChildren(nodes, i);
    ChildAfter(nodes, i, 0);
    ChildAfter(nodes, i, 1);
    assert Variations(nodes, i, 1) == Wrapped(nodes, i, 0) by {
      assert Variations(nodes, i, 0) == "";
    }
    assert Wrapped(nodes, i, 0) == Paren(Moves(nodes, nodes[i].children[0]));
    assert Wrapped(nodes, i, 1) == Paren(Moves(nodes, nodes[i].children[1]));
  }

  /** The line of nodes from i following first children down to a leaf. */
  function Line(nodes: seq<Node>, i: nat): (ln: seq<nat>)
    requires Shaped(nodes) && i < |nodes|
    ensures |ln| > 0 && ln[0] == i
    ensures forall k | 0 <= k < |ln| :: i <= ln[k] < |nodes|
    decreases |nodes| - i
  {
    if |nodes[i].children| == 0 then [i]
    else
      ChildAfter(nodes, i, 0);
      [i] + Line(nodes, nodes[i].children[0])
  }

  /** Each listed node's text, each after a ";". */
  function Texts(nodes: seq<Node>, ln: seq<nat>): string
    requires forall k | 0 <= k < |ln| :: ln[k] < |nodes|
  {
    if |ln| == 0 then "" else ";" + NodeText(nodes[ln[0]]) + Texts(nodes, ln[1..])
  }

  /** No node on the line branches. */
  predicate SingleLine(nodes: seq<Node>, ln: seq<nat>)
    requires forall k | 0 <= k < |ln| :: ln[k] < |nodes|
  {
    forall k | 0 <= k < |ln| :: |nodes[ln[k]].children| <= 1 && !nodes[ln[k]].IsRoot()
  }

  /** A tree without variations prints ";" and the text of each node, in depth order. */
  lemma {:induction false} SingleLineText(nodes: seq<Node>, i: nat)
    requires Shaped(nodes) && i < |nodes| && SingleLine(nodes, Line(nodes, i))
    ensures Moves(nodes, i) == Texts(nodes, Line(nodes, i))
    decreases |nodes| - i
  {
    var ln := Line(nodes, i);
    assert |nodes[ln[0]].children| <= 1 && !nodes[ln[0]].IsRoot();
    if |nodes[i].children| == 0 {
      assert ln == [i];
      assert Texts(nodes, ln[1..]) == "";
    } else {
      var c := nodes[i].children[0];
      ChildAfter(nodes, i, 0);
      assert ln == [i] + Line(nodes, c);
      assert ln[1..] == Line(nodes, c);
      assert SingleLine(nodes, Line(nodes, c)) by {
        forall k | 0 <= k < |Line(nodes, c)|
          ensures |nodes[Line(nodes, c)[k]].children| <= 1 && !nodes[Line(nodes, c)[k]].IsRoot()
        {
          assert Line(nodes, c)[k] == ln[k + 1];
        }
      }
      SingleLineText(nodes, c);
      OneChild(nodes, i);
    }
  }

  /** A game whose root has one child prints nothing for the root itself. */
  lemma {:induction false} RootSilent(nodes: seq<Node>)
    requires Shaped(nodes) && |nodes| > 0 && nodes[0].IsRoot() && |nodes[0].children| == 1
    ensures Moves(nodes, 0) == Moves(nodes, nodes[0].children[0])
  {
    OneChild(nodes, 0);
  }

  /** SGFprintMoves: a recursive walk whose loop over the children accumulates the text. */
  method PrintMoves(tree: GameTree, i: nat) returns (s: string)
    requires tree.Valid() && i < |tree.nodes|
    ensures Shaped(tree.nodes) && s == Moves(tree.nodes, i)
    decreases |tree.nodes| - i
  {
    assert Shaped(tree.nodes);
    var n := tree.nodes[i];
    var numChild := |n.children|;
    s := "";
    var k := 0;
    while k < numChild
      invariant 0 <= k <= numChild
      invariant s == Iterations(tree.nodes, i, k)
    {
      ChildAfter(tree.nodes, i, k);
      ChildAfter(tree.nodes, i, 0);
      var round := "";
      if k == 0 && !n.IsRoot() {
        var t := GameTree.NodeToText(n);
        round := ";" + t;
      }
      if numChild > 1 {
        round := round + "(";
      }
      // next() is the first child, never the node itself
      if Next(i, n) != i {
        var sub := PrintMoves(tree, n.children[k]);
        round := round + sub;
      }
      if numChild > 1 {
        round := round + ")";
      }
      assert round == Round(tree.nodes, i, k);
      s := s + round;
      k := k + 1;
    }
    if numChild == 0 {
      var t := GameTree.NodeToText(n);
      s := s + ";" + t;
    }
  }

  // ---- the file ----

  /** The descriptive header fields, already formatted (names, date, ranks, komi). */
  datatype GameInfo = GameInfo(
    name: string, event: string, date: string, place: string, notes: string,
    whiteName: string, whiteRank: string, blackName: string, blackRank: string,
    komi: string, ruleSet: string)

  const Opening: string := "(;FF[4]GM[1]\n\n"
  const Closing: string := ")\n"

  function Header(info: GameInfo, result: string, handi: int, size: string): string {
    "AP[LeelaWatcher 1.0]\n\n"
    + "GN[" + info.name + "]\n" + "EV[" + info.event + "]\n" + "RE[" + result + "]\n"
    + "DT[" + info.date + "] " + "PC[" + info.place + "]\n" + "GC[" + info.notes + "]\n\n"
    + "PW[" + info.whiteName + "] " + "WR[" + info.whiteRank + "]\n"
    + "PB[" + info.blackName + "] " + "BR[" + info.blackRank + "]\n\n"
    + "HA[" + IntText(handi) + "] " + "KM[" + info.komi + "] " + "SZ[" + size + "]\n"
    + "RU[" + info.ruleSet + "]\n\n"
  }

  lemma Framing(o: string, h: string, m: string, c: string)
    ensures |o + h + m + c| > |o| + |m| + |c| - 1
    ensures (o + h + m + c)[..|o|] == o
    ensures (o + h + m + c)[|o + h + m + c| - |m| - |c|..] == m + c
  {
    var s := o + h + m + c;
    assert s == o + (h + m + c);
    assert s == (o + h) + (m + c);
  }

  /**
   * buildSGF: the FF[4] opening, the header, the whole tree from the root
   * and the closing parenthesis with a newline.
   */
  method BuildSgf(gm: Game, info: GameInfo) returns (s: string)
    requires gm.Valid()
    ensures Shaped(gm.tree.nodes)
    ensures s == Opening + Header(info, gm.gameResult, gm.handi, SizeText(gm.sizeX, gm.sizeY))
                 + Moves(gm.tree.nodes, 0) + Closing
    ensures |s| > |Opening| && s[..|Opening|] == Opening
    ensures s[|s| - |Moves(gm.tree.nodes, 0)| - |Closing|..] == Moves(gm.tree.nodes, 0) + Closing
  {
    var size := gm.GetBoardSize();
    var moves := PrintMoves(gm.tree, 0);
    var header := Header(info, gm.gameResult, gm.handi, size);
    s := Opening + header + moves + Closing;
    Framing(Opening, header, moves, Closing);
  }
}
