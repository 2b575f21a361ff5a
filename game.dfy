/**
 * The game record (leelawatcher/goboard/Game.java): a cursor into the move
 * tree together with the turn, handicap and undo settings. The player
 * names, ranks, komi, dates and other descriptive text are left out.
 */
module Games {
  import opened Base
  import opened Points
  import opened MoveTree

  /**
   * The colour doMove gives a stone played below `cur`: after a setup node
   * it follows whiteLast; otherwise black follows a white play or a root
   * without handicap, and white follows anything else.
   */
  function StoneColor(cur: Node, whiteLast: bool, handi: int): (c: char)
    ensures c == MoveBlack || c == MoveWhite
    ensures cur.IsMove() ==> c != cur.color
  {
    if cur.IsSetup() then (if whiteLast then MoveBlack else MoveWhite)
    else if cur.IsWhite() || (cur.IsRoot() && handi == 0) then MoveBlack
    else MoveWhite
  }

  /** The colour of the next stone as isWMove reports it. */
  function Predicted(whiteLast: bool): char {
    if whiteLast then MoveBlack else MoveWhite
  }

  /** A play node below `cur` is always accepted by the play constructor. */
  lemma {:induction false} PlayBelowAccepted(x: int, y: int, cur: Node, p: nat, whiteLast: bool, handi: int)
    ensures PlayNode(x, y, StoneColor(cur, whiteLast, handi), p, cur).Ok?
  {
    var c := StoneColor(cur, whiteLast, handi);
    assert c == MoveBlack || c == MoveWhite;
    assert !(cur.IsMove() && c == cur.color);
  }

  /** A fresh game's first stone agrees with isWMove exactly when there is no handicap. */
  lemma FirstStoneAgrees(handi: int)
    ensures StoneColor(RootNode(0), true, handi) == Predicted(true) <==> handi == 0
  {}

  /**
   * undoMove keeps whiteLast: after black's first stone is taken back,
   * isWMove reports white while the next stone played is black.
   */
  lemma UndoFirstStoneDisagrees()
    ensures StoneColor(RootNode(0), false, 0) == MoveBlack
    ensures Predicted(false) == MoveWhite
  {}

  /** doSetup files the point in the list its type names; other types file nothing. */
  function Filed(n: Node, kind: char, x: int, y: int): (r: Node)
    ensures r.color == n.color && r.parent == n.parent && r.children == n.children
    ensures r.comment == n.comment && r.colorMoveNext == n.colorMoveNext
    ensures kind != EmptyPoint && kind != MoveBlack && kind != MoveWhite ==> r == n
  {
    if kind == EmptyPoint then SetupEmpty(n, PointOfPlay(x, y))
    else if kind == MoveBlack then SetupBlack(n, PointOfPlay(x, y))
    else if kind == MoveWhite then SetupWhite(n, PointOfPlay(x, y))
    else n
  }

  /** setHandi: values of at most 1 mean no handicap; traditional handicap stops at 9. */
  function HandiValue(handicap: int, tradHandi: bool): (r: int)
    ensures r == 0 || 2 <= r
    ensures tradHandi ==> r <= 9
    ensures 2 <= handicap && (handicap <= 9 || !tradHandi) ==> r == handicap
    ensures handicap <= 1 ==> r == 0
  {
    var h := if tradHandi && handicap > 9 then 9 else handicap;
    if h <= 1 then 0 else h
  }

  /** getBoardSize: one number for a square board, "x:y" otherwise. */
  function SizeText(x: int, y: int): string {
    if x == y then IntText(x) else IntText(x) + ":" + IntText(y)
  }

  lemma {:induction false} NoColon(n: int)
    ensures ':' !in IntText(n)
  {
    var s := IntText(n);
    if n < 0 {
      var d := NatText(-n);
      assert s == "-" + d;
      forall i | 1 <= i < |s| ensures s[i] != ':' {
        assert s[i] == d[i - 1];
      }
    }
  }

  /** The size text names the board: it reads back as the side of a square board, and is a colon pair otherwise. */
  lemma {:induction false} SizeTextMeaning(x: int, y: int)
    ensures x == y <==> ':' !in SizeText(x, y)
    ensures x == y ==> IntOfText(SizeText(x, y)) == x
  {
    NoColon(x);
    IntTextRoundTrip(x);
    if x != y {
      assert SizeText(x, y)[|IntText(x)|] == ':';
    }
  }

  /** The node list with node c's comment prefixed "UNDO " when `mark`. */
  function UndoMarked(ns: seq<Node>, c: nat, mark: bool): (r: seq<Node>)
    requires c < |ns|
    ensures |r| == |ns| && r[c].parent == ns[c].parent
  {
    if mark then ns[c := ns[c].(comment := "UNDO " + ns[c].comment)] else ns
  }

  /** The node list with c removed from the children of its parent p. */
  function Detached(ns: seq<Node>, p: nat, c: nat): (r: seq<Node>)
    requires p < |ns|
    ensures |r| == |ns|
  {
    ns[p := ns[p].(children := RemoveChildSpec(ns[p].children, c))]
  }

  /** Different board sizes have different texts. */
  lemma {:induction false} SizeTextInjective(x: int, y: int, x': int, y': int)
    requires SizeText(x, y) == SizeText(x', y')
    ensures x == x' && y == y'
  {
    SizeTextMeaning(x, y);
    SizeTextMeaning(x', y');
    IntTextRoundTrip(x);
    IntTextRoundTrip(x');
    if x == y {
      assert x' == y';
    } else {
      NoColon(x);
      NoColon(x');
      SplitAtFirst(IntText(x), IntText(y), IntText(x'), IntText(y'), ':');
      IntTextRoundTrip(y);
      IntTextRoundTrip(y');
    }
  }

  class Game {
    const tree: GameTree
    var handi: int
    var handiLeft: int          // handicap stones still to be placed
    var gameOver: bool
    var whiteLast: bool         // true makes it black's move
    var currMove: nat           // index of the current node in the tree
    var prevMove: nat
    var remUndo: bool           // undone moves stay as variations
    var markUndos: bool         // undone moves get an "UNDO " comment
    var tradHandi: bool         // handicap stones go on the star points
    var sizeX: int
    var sizeY: int
    var gameResult: string

    ghost predicate Valid()
      reads this, tree
    {
      tree.Valid() && currMove < |tree.nodes| && prevMove < |tree.nodes|
      && handiLeft <= handi
    }

    /** The colour doMove would give the next stone. */
    ghost function NextColor(): char
      reads this, tree
      requires Valid()
    {
      StoneColor(tree.nodes[currMove], whiteLast, handi)
    }

    /** The next stone's colour is the one isWMove reports. */
    ghost predicate TurnAgrees()
      reads this, tree
      requires Valid()
    {
      NextColor() == Predicted(whiteLast)
    }

    /** doMove ignores a point off the board unless x is PASS. */
    ghost predicate Ignored(x: int, y: int)
      reads this
    {
      !(0 <= x < sizeX && 0 <= y < sizeY) && x != Pass
    }

    /** doMove places a free handicap stone on the root instead of playing. */
    ghost predicate FreeHandicap()
      reads this, tree
      requires Valid()
    {
      tree.nodes[currMove].IsRoot() && handiLeft > 0 && !tradHandi
    }

    /** Fields no move, setup or undo touches. */
    twostate predicate SettingsKept()
      reads this
    {
      handi == old(handi) && gameOver == old(gameOver) && remUndo == old(remUndo)
      && markUndos == old(markUndos) && tradHandi == old(tradHandi)
      && sizeX == old(sizeX) && sizeY == old(sizeY) && gameResult == old(gameResult)
    }

    /** A new game: the tree is a lone root, black to move, nothing over. */
    constructor (handicap: int)
      ensures Valid() && fresh(tree) && tree.nodes == [RootNode(0)]
      ensures currMove == 0 && prevMove == 0 && whiteLast && !gameOver
      ensures remUndo && markUndos && tradHandi
      ensures handi == handicap && handiLeft == handicap
      ensures sizeX == Size && sizeY == Size && gameResult == "?"
    {
      handi := handicap;
      handiLeft := handicap;
      sizeX := Size;
      sizeY := Size;
      gameResult := "?";
      tradHandi := true;
      tree := new GameTree();
      gameOver := false;
      whiteLast := true;
      currMove := 0;
      prevMove := 0;
      remUndo := true;
      markUndos := true;
    }

    /**
     * doMove: ignore an off-board point, place a free handicap stone on the
     * root, or hang a new play of the next colour below the current node.
     */
    method DoMove(x: int, y: int) returns (m: nat)
      requires Valid()
      modifies this, tree
      ensures Valid() && m == currMove && SettingsKept()
      ensures old(Ignored(x, y)) ==>
                tree.nodes == old(tree.nodes) && currMove == old(currMove)
                && prevMove == old(prevMove) && whiteLast == old(whiteLast)
                && handiLeft == old(handiLeft)
      ensures old(!Ignored(x, y) && FreeHandicap()) ==>
                tree.nodes == old(tree.nodes)[old(currMove) := SetupBlack(old(tree.nodes[currMove]), PointOfPlay(x, y))]
                && currMove == old(currMove) && prevMove == old(prevMove)
                && !whiteLast && handiLeft == old(handiLeft) - 1
      ensures old(!Ignored(x, y) && !FreeHandicap()) ==>
                prevMove == old(currMove) && currMove == |old(tree.nodes)|
                && tree.nodes == old(tree.nodes)[prevMove := old(tree.nodes[currMove]).(children := old(tree.nodes[currMove]).children + [currMove])]
                                 + [PlayNode(x, y, old(NextColor()), prevMove, old(tree.nodes[currMove])).value]
                && whiteLast == !old(whiteLast) && handiLeft == old(handiLeft)
      ensures old(TurnAgrees()) ==> TurnAgrees()
    {
      var onBoard := 0 <= x < sizeX && 0 <= y < sizeY;
      if !onBoard && x != Pass {
        return currMove;
      }
      if tree.nodes[currMove].IsRoot() && handiLeft > 0 {
        if !tradHandi {
          whiteLast := false;
          handiLeft := handiLeft - 1;
          tree.SetupBlackAt(currMove, x, y);
          return currMove;
        }
      }
      prevMove := currMove;
      var stoneColor := StoneColor(tree.nodes[prevMove], whiteLast, handi);
      PlayBelowAccepted(x, y, tree.nodes[prevMove], prevMove, whiteLast, handi);
      var made := tree.NewPlay(x, y, stoneColor, prevMove);
      currMove := made.value;
      whiteLast := !whiteLast;
      m := currMove;
    }

    /**
     * doSetup: reuse a current setup node or make one below prevMove, file
     * the point by its type, and record who moves next.
     */
    method DoSetup(kind: char, x: int, y: int, blackToMove: bool)
      requires Valid()
      modifies this, tree
      ensures Valid() && SettingsKept() && prevMove == old(prevMove)
      ensures handiLeft == old(handiLeft) && whiteLast == blackToMove
      ensures old(tree.nodes[currMove].IsSetup()) ==>
                currMove == old(currMove)
                && tree.nodes == old(tree.nodes)[old(currMove) := Filed(old(tree.nodes[currMove]), kind, x, y)
                                                              .(colorMoveNext := Predicted(blackToMove))]
      ensures !old(tree.nodes[currMove].IsSetup()) ==>
                currMove == |old(tree.nodes)|
                && tree.nodes == old(tree.nodes)[prevMove := old(tree.nodes[prevMove]).(children := old(tree.nodes[prevMove]).children + [currMove])]
                                 + [Filed(SetupNode(prevMove, old(tree.nodes[prevMove])), kind, x, y)
                                    .(colorMoveNext := Predicted(blackToMove))]
      ensures tree.nodes[currMove].IsSetup() && TurnAgrees()
    {
      if !tree.nodes[currMove].IsSetup() {
        currMove := tree.NewSetup(prevMove);
      }
      FileAt(kind, x, y);
      var done := tree.SetColorMoveNext(currMove, if blackToMove then MoveBlack else MoveWhite);
      whiteLast := blackToMove;
    }

    /** The switch in doSetup: files the point in the current node. */
    method FileAt(kind: char, x: int, y: int)
      requires Valid()
      modifies tree
      ensures Valid() && tree.nodes == old(tree.nodes)[currMove := Filed(old(tree.nodes[currMove]), kind, x, y)]
    {
      if kind == EmptyPoint {
        tree.SetupEmptyAt(currMove, x, y);
      } else if kind == MoveBlack {
        tree.SetupBlackAt(currMove, x, y);
      } else if kind == MoveWhite {
        tree.SetupWhiteAt(currMove, x, y);
      }
    }

    /** delCurrMove: step up to the parent and detach the node left behind. */
    method DelCurrMove()
      requires Valid()
      modifies this, tree
      ensures Valid() && SettingsKept() && prevMove == old(prevMove)
      ensures whiteLast == old(whiteLast) && handiLeft == old(handiLeft)
      ensures currMove == old(tree.nodes[currMove].parent)
      ensures tree.nodes == Detached(old(tree.nodes), currMove, old(currMove))
    {
      var dead := currMove;
      var p := tree.nodes[dead].parent;
      assert p < |tree.nodes| by {
        assert dead == 0 || tree.nodes[dead].parent < dead;
      }
      currMove := p;
      tree.RemoveChild(p, dead);
    }

    /** The marking step of undoMove: "UNDO " goes in front of the comment when markUndos. */
    method MarkUndo()
      requires Valid()
      modifies tree
      ensures Valid() && tree.nodes == UndoMarked(old(tree.nodes), currMove, markUndos)
    {
      if markUndos {
        tree.SetComment(currMove, "UNDO " + tree.nodes[currMove].comment);
      }
    }

    /** The remUndo step of undoMove: the parent becomes current, the tree is kept. */
    method StepUp()
      requires Valid()
      modifies this
      ensures Valid() && SettingsKept() && prevMove == old(prevMove)
      ensures whiteLast == old(whiteLast) && handiLeft == old(handiLeft)
      ensures currMove == old(tree.nodes[currMove].parent)
    {
      var p := tree.nodes[currMove].parent;
      assert p < |tree.nodes| by {
        assert currMove == 0 || tree.nodes[currMove].parent < currMove;
      }
      currMove := p;
    }

    /**
     * undoMove: mark the node "UNDO " when markUndos, then step up to the
     * parent, keeping the node as a variation when remUndo and detaching it
     * otherwise. whiteLast is left as it was.
     */
    method UndoMove()
      requires Valid()
      modifies this, tree
      ensures Valid() && SettingsKept() && prevMove == old(prevMove)
      ensures whiteLast == old(whiteLast) && handiLeft == old(handiLeft)
      ensures currMove == old(tree.nodes[currMove].parent)
      ensures var n1 := UndoMarked(old(tree.nodes), old(currMove), markUndos);
              tree.nodes == if remUndo then n1 else Detached(n1, currMove, old(currMove))
    {
      MarkUndo();
      if remUndo {
        StepUp();
      } else {
        DelCurrMove();
      }
    }

    /** setHandi: both the handicap and the stones left take the adjusted value. */
    method SetHandi(handicap: int)
      requires Valid()
      modifies this
      ensures Valid() && handi == HandiValue(handicap, tradHandi) && handiLeft == handi
      ensures tradHandi == old(tradHandi) && whiteLast == old(whiteLast)
      ensures currMove == old(currMove) && prevMove == old(prevMove) && gameOver == old(gameOver)
    {
      var h := handicap;
      if tradHandi && h > 9 {
        h := 9;
      }
      if h <= 1 {
        h := 0;
      }
      handi := h;
      handiLeft := h;
    }

    /** isWMove. */
    predicate IsWMove()
      reads this
    {
      !whiteLast
    }

    /** While the turn agrees, isWMove says white exactly when doMove would play white. */
    lemma IsWMoveMeaning()
      requires Valid() && TurnAgrees()
      ensures IsWMove() <==> NextColor() == MoveWhite
    {}

    method SetGameOver(over: bool)
      requires Valid()
      modifies this
      ensures Valid() && handi == old(handi) && handiLeft == old(handiLeft) && prevMove == old(prevMove)
      ensures gameOver == over && whiteLast == old(whiteLast) && currMove == old(currMove)
      ensures gameResult == old(gameResult) && sizeX == old(sizeX) && sizeY == old(sizeY)
    {
      gameOver := over;
    }

    method SetGameResult(result: string)
      requires Valid()
      modifies this
      ensures Valid() && handi == old(handi) && handiLeft == old(handiLeft) && prevMove == old(prevMove)
      ensures gameResult == result && gameOver == old(gameOver) && whiteLast == old(whiteLast)
      ensures currMove == old(currMove) && sizeX == old(sizeX) && sizeY == old(sizeY)
    {
      gameResult := result;
    }

    method SetBoardSize(square: int)
      requires Valid()
      modifies this
      ensures Valid() && handi == old(handi) && handiLeft == old(handiLeft) && prevMove == old(prevMove)
      ensures sizeX == square && sizeY == square
      ensures whiteLast == old(whiteLast) && currMove == old(currMove) && gameOver == old(gameOver)
    {
      sizeX := square;
      sizeY := square;
    }

    /** getBoardSize, as text. */
    method GetBoardSize() returns (s: string)
      ensures s == SizeText(sizeX, sizeY)
      ensures sizeX == sizeY ==> ':' !in s && IntOfText(s) == sizeX
    {
      SizeTextMeaning(sizeX, sizeY);
      if sizeX == sizeY {
        s := IntText(sizeX);
      } else {
        s := IntText(sizeX) + ":" + IntText(sizeY);
      }
    }
  }
}
