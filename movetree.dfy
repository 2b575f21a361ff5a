/**
 * The game tree of moves. Both copies of the node class (the all-in-one
 * `goboard/Move.java` and the split `move/` package) behave alike, so one
 * node datatype models them. Nodes live in an arena addressed by index:
 * the index plays the part of the object identity and of the instance
 * number, which grows with every node created.
 */
module MoveTree {
  import opened Base
  import opened Points

  const MoveWhite: char := 'W'
  const MoveBlack: char := 'B'
  const EmptyPoint: char := 'E'
  const MoveRoot: char := 'R'
  const MoveSetup: char := 'S'
  /** The coordinates a setup node is given. */
  const SetupCoord: int := 98

  datatype Node = Node(
    x: int, y: int,
    color: char,                  // 'B', 'W', 'S' or 'R'
    moveNum: int,                 // depth into the game, setups excluded
    parent: nat,                  // index of the parent; the root is its own parent
    children: seq<nat>,           // indices of the children, in order of creation
    comment: string,
    colorMoveNext: char,          // who plays after a setup or root node
    addBlack: seq<PointOfPlay>,
    addWhite: seq<PointOfPlay>,
    addEmpty: seq<PointOfPlay>)
  {
    predicate IsSetup() { color == MoveSetup }
    predicate IsRoot() { color == MoveRoot }
    predicate IsMove() { color == MoveWhite || color == MoveBlack }
    predicate IsWhite() { color == MoveWhite }
    predicate IsBlack() { color == MoveBlack }
    predicate IsPass() { IsPassAt(x, y) }
  }

  predicate IsPassAt(x: int, y: int) {
    x == Pass && y == Pass
  }

  /** The colour characters the three constructors give a node. */
  predicate KnownColor(c: char) {
    c == MoveRoot || c == MoveSetup || c == MoveWhite || c == MoveBlack
  }

  /** The kind of a node follows from its colour: exactly one of root, setup, play. */
  lemma KindsPartition(n: Node)
    requires KnownColor(n.color)
    ensures (if n.IsRoot() then 1 else 0) + (if n.IsSetup() then 1 else 0)
            + (if n.IsMove() then 1 else 0) == 1
    ensures n.IsMove() <==> n.IsWhite() || n.IsBlack()
    ensures !(n.IsWhite() && n.IsBlack())
  {}

  // ---- the three constructors, as values ----

  /** A root node: colour 'R', coordinates PASS, move number 0, its own parent. */
  function RootNode(self: nat): (n: Node)
    ensures n.IsRoot() && n.IsPass() && n.moveNum == 0 && n.parent == self
    ensures n.children == [] && n.comment == ""
    ensures n.addBlack == [] && n.addWhite == [] && n.addEmpty == []
  {
    Node(Pass, Pass, MoveRoot, 0, self, [], "", '\0', [], [], [])
  }

  /** A setup node below `parent` (whose index is `p`). */
  function SetupNode(p: nat, parent: Node): (n: Node)
    ensures n.IsSetup() && !n.IsPass() && !n.IsMove()
    ensures n.moveNum == parent.moveNum && n.colorMoveNext == parent.colorMoveNext
    ensures n.parent == p && n.children == [] && n.comment == ""
    ensures n.addBlack == [] && n.addWhite == [] && n.addEmpty == []
  {
    Node(SetupCoord, SetupCoord, MoveSetup, parent.moveNum, p, [], "",
         parent.colorMoveNext, [], [], [])
  }

  /**
   * A play node below `parent`. The colour must be 'B' or 'W', and must
   * differ from the parent's when the parent is itself a play.
   */
  function PlayNode(x: int, y: int, pcolor: char, p: nat, parent: Node): (r: Result<Node>)
    ensures r.Ok? <==> (pcolor == MoveBlack || pcolor == MoveWhite)
                       && !(parent.IsMove() && pcolor == parent.color)
    ensures r.Err? ==> r.fault == IllegalArgument
    ensures r.Ok? ==> r.value.IsMove() && r.value.color == pcolor
                      && r.value.x == x && r.value.y == y
                      && r.value.moveNum == parent.moveNum + 1
                      && r.value.parent == p && r.value.children == []
                      && r.value.comment == ""
  {
    if pcolor != MoveBlack && pcolor != MoveWhite then Err(IllegalArgument)
    else if parent.IsMove() && pcolor == parent.color then Err(IllegalArgument)
    else Ok(Node(x, y, pcolor, parent.moveNum + 1, p, [], "", '\0', [], [], []))
  }

  /** A root or setup parent accepts a play of either colour. */
  lemma {:induction false} PlayAfterNonPlay(x: int, y: int, c: char, p: nat, parent: Node)
    requires !parent.IsMove() && (c == MoveBlack || c == MoveWhite)
    ensures PlayNode(x, y, c, p, parent).Ok?
  {}

  // ---- list operations of java.util.List ----

  /** List.remove(Object): drops the first element equal to `p`. */
  function RemoveFirst(s: seq<PointOfPlay>, p: PointOfPlay): (r: seq<PointOfPlay>)
    ensures p !in s ==> r == s
    ensures p in s ==> |r| == |s| - 1
    ensures multiset(r) == multiset(s) - multiset{p}
  {
    if |s| == 0 then s
    else
      assert s == [s[0]] + s[1..];
      if s[0] == p then s[1..] else [s[0]] + RemoveFirst(s[1..], p)
  }

  /** The index of the first occurrence, for stating what RemoveFirst keeps. */
  function IndexOf<T(==)>(s: seq<T>, p: T): (i: nat)
    requires p in s
    ensures i < |s| && s[i] == p && p !in s[..i]
  {
    if s[0] == p then 0 else
      assert p in s[1..];
      1 + IndexOf(s[1..], p)
  }

  /** Putting the head back in front of the tail with one element dropped. */
  lemma ConsSlices<T>(s: seq<T>, j: nat)
    requires j + 1 < |s|
    ensures [s[0]] + (s[1..][..j] + s[1..][j + 1..]) == s[..j + 1] + s[j + 2..]
  {
    assert s[1..][..j] == s[1..j + 1] && s[1..][j + 1..] == s[j + 2..];
    assert [s[0]] + s[1..j + 1] == s[..j + 1];
  }

  /** RemoveFirst keeps every other element in order. */
  lemma {:induction false} RemoveFirstKeepsOrder(s: seq<PointOfPlay>, p: PointOfPlay)
    requires p in s
    ensures RemoveFirst(s, p) == s[..IndexOf(s, p)] + s[IndexOf(s, p) + 1..]
  {
    if s[0] != p {
      var j := IndexOf(s[1..], p);
      assert IndexOf(s, p) == j + 1;
      RemoveFirstKeepsOrder(s[1..], p);
      assert RemoveFirst(s, p) == [s[0]] + RemoveFirst(s[1..], p);
      ConsSlices(s, j);
    } else {
      assert s[..0] == [];
    }
  }

  predicate NoDuplicates<T(==)>(s: seq<T>) {
    forall i, j | 0 <= i < j < |s| :: s[i] != s[j]
  }

  /** The tail of a list without duplicates has none, nor its head. */
  lemma TailNoDup<T>(s: seq<T>)
    requires |s| > 0 && NoDuplicates(s)
    ensures NoDuplicates(s[1..]) && s[0] !in s[1..]
  {
    forall i, j | 0 <= i < j < |s[1..]| ensures s[1..][i] != s[1..][j] {
      assert s[1..][i] == s[i + 1] && s[1..][j] == s[j + 1];
    }
  }

  lemma ConsNoDup<T>(x: T, t: seq<T>)
    requires x !in t && NoDuplicates(t)
    ensures NoDuplicates([x] + t)
  {
    forall i, j | 0 <= i < j < |[x] + t| ensures ([x] + t)[i] != ([x] + t)[j] {
      assert ([x] + t)[j] == t[j - 1];
    }
  }

  lemma SubIn<T>(x: T, t: seq<T>, u: seq<T>)
    requires multiset(t) <= multiset(u)
    ensures x in t ==> x in u
  {
    if x in t {
      assert x in multiset(t);
    }
  }

  /** On a list without duplicates, RemoveFirst removes every occurrence. */
  lemma {:induction false} RemoveFirstNoDup(s: seq<PointOfPlay>, p: PointOfPlay)
    requires NoDuplicates(s)
    ensures p !in RemoveFirst(s, p)
    ensures NoDuplicates(RemoveFirst(s, p))
  {
    if |s| > 0 {
      TailNoDup(s);
      if s[0] != p {
        RemoveFirstNoDup(s[1..], p);
        var t := RemoveFirst(s[1..], p);
        assert RemoveFirst(s, p) == [s[0]] + t;
        SubIn(s[0], t, s[1..]);
        ConsNoDup(s[0], t);
      }
    }
  }

  /** Removing a child that was just appended restores the list. */
  lemma {:induction false} RemoveLastAdded(s: seq<nat>, c: nat)
    requires c !in s
    ensures RemoveChildSpec(s + [c], c) == s
  {
    if |s| > 0 {
      assert (s + [c])[1..] == s[1..] + [c];
      RemoveLastAdded(s[1..], c);
    }
  }

  /** List.remove(Object) on the child list. */
  function RemoveChildSpec(s: seq<nat>, c: nat): (r: seq<nat>)
    ensures c !in s ==> r == s
    ensures multiset(r) == multiset(s) - multiset{c}
  {
    if |s| == 0 then s
    else
      assert s == [s[0]] + s[1..];
      if s[0] == c then s[1..] else [s[0]] + RemoveChildSpec(s[1..], c)
  }

  /** Removing a child keeps the rest of the list after its parent. */
  lemma RemoveChildAfter(i: nat, cs: seq<nat>, c: nat, count: nat)
    requires GameTree.ChildrenAfter(i, cs, count)
    ensures GameTree.ChildrenAfter(i, RemoveChildSpec(cs, c), count)
  {
    var r := RemoveChildSpec(cs, c);
    forall k | 0 <= k < |r| ensures i < r[k] < count {
      SubIn(r[k], r, cs);
    }
  }

  // ---- setup lists ----

  datatype SetupList = EmptyList | WhiteList | BlackList

  function ListOf(n: Node, l: SetupList): seq<PointOfPlay> {
    match l
    case EmptyList => n.addEmpty
    case WhiteList => n.addWhite
    case BlackList => n.addBlack
  }

  function WithList(n: Node, l: SetupList, s: seq<PointOfPlay>): Node {
    match l
    case EmptyList => n.(addEmpty := s)
    case WhiteList => n.(addWhite := s)
    case BlackList => n.(addBlack := s)
  }

  /**
   * remDup: when `p` occurs in `list`, the first occurrence of `p` is removed
   * from addWhite -- whichever list was searched.
   */
  function RemDup(n: Node, p: PointOfPlay, list: seq<PointOfPlay>): (r: Node)
    ensures r.addBlack == n.addBlack && r.addEmpty == n.addEmpty
    ensures r.children == n.children && r.color == n.color && r.parent == n.parent
  {
    if p in list then n.(addWhite := RemoveFirst(n.addWhite, p)) else n
  }

  /** The private setup(x, y, target, other1, other2) helper. */
  function Setup(n: Node, target: SetupList, other1: SetupList, other2: SetupList,
                 p: PointOfPlay): Node
  {
    if n.IsMove() then n
    else if p in ListOf(n, target) then n
    else
      var n1 := RemDup(n, p, ListOf(n, other1));
      var n2 := RemDup(n1, p, ListOf(n1, other2));
      WithList(n2, target, ListOf(n2, target) + [p])
  }

  function SetupEmpty(n: Node, p: PointOfPlay): Node { Setup(n, EmptyList, WhiteList, BlackList, p) }
  function SetupWhite(n: Node, p: PointOfPlay): Node { Setup(n, WhiteList, EmptyList, BlackList, p) }
  function SetupBlack(n: Node, p: PointOfPlay): Node { Setup(n, BlackList, WhiteList, EmptyList, p) }

  function UndoSetupEmpty(n: Node, p: PointOfPlay): Node {
    if n.IsMove() then n else RemDup(n, p, n.addEmpty)
  }

  function UndoSetupWhite(n: Node, p: PointOfPlay): Node {
    if n.IsMove() then n else RemDup(n, p, n.addWhite)
  }

  function UndoSetupBlack(n: Node, p: PointOfPlay): Node {
    if n.IsMove() then n else n.(addBlack := RemoveFirst(n.addBlack, p))
  }

  /** A setup request on a play node is ignored. */
  lemma SetupIgnoredOnPlay(n: Node, t: SetupList, o1: SetupList, o2: SetupList, p: PointOfPlay)
    requires n.IsMove()
    ensures Setup(n, t, o1, o2, p) == n
    ensures UndoSetupEmpty(n, p) == n && UndoSetupWhite(n, p) == n && UndoSetupBlack(n, p) == n
  {}

  /** remDup never touches the empty and black lists. */
  lemma RemDupOther(n: Node, p: PointOfPlay, list: seq<PointOfPlay>, l: SetupList)
    requires l != WhiteList
    ensures ListOf(RemDup(n, p, list), l) == ListOf(n, l)
  {}

  /** remDup of a point not in addWhite changes nothing. */
  lemma RemDupNoop(n: Node, p: PointOfPlay, list: seq<PointOfPlay>)
    requires p !in n.addWhite
    ensures RemDup(n, p, list) == n
  {
    assert RemoveFirst(n.addWhite, p) == n.addWhite;
  }

  lemma WithListOf(n: Node, l: SetupList, s: seq<PointOfPlay>)
    ensures ListOf(WithList(n, l, s), l) == s
    ensures forall k | k != l :: ListOf(WithList(n, l, s), k) == ListOf(n, k)
    ensures WithList(n, l, s).children == n.children && WithList(n, l, s).color == n.color
  {}

  lemma AppendNoDup<T>(s: seq<T>, x: T)
    requires x !in s && NoDuplicates(s)
    ensures NoDuplicates(s + [x])
  {}

  /**
   * Each setupX call leaves `p` in its target list, never twice, appended
   * when it was not there, and touches no other list but addWhite.
   */
  lemma {:induction false} SetupFilesPoint(n: Node, t: SetupList, o1: SetupList, o2: SetupList,
                                           p: PointOfPlay)
    requires !n.IsMove() && NoDuplicates(ListOf(n, t))
    ensures var r := Setup(n, t, o1, o2, p);
      p in ListOf(r, t) && NoDuplicates(ListOf(r, t))
      && ListOf(r, t) == ListOf(n, t) + (if p in ListOf(n, t) then [] else [p])
      && (forall l | l != t && l != WhiteList :: ListOf(r, l) == ListOf(n, l))
      && r.children == n.children && r.color == n.color
  {
    if p !in ListOf(n, t) {
      var n1 := RemDup(n, p, ListOf(n, o1));
      var n2 := RemDup(n1, p, ListOf(n1, o2));
      if t == WhiteList {
        RemDupNoop(n, p, ListOf(n, o1));
        RemDupNoop(n1, p, ListOf(n1, o2));
      } else {
        RemDupOther(n, p, ListOf(n, o1), t);
        RemDupOther(n1, p, ListOf(n1, o2), t);
      }
      assert ListOf(n2, t) == ListOf(n, t);
      AppendNoDup(ListOf(n, t), p);
      WithListOf(n2, t, ListOf(n, t) + [p]);
      forall l | l != t && l != WhiteList ensures ListOf(n2, l) == ListOf(n, l) {
        RemDupOther(n, p, ListOf(n, o1), l);
        RemDupOther(n1, p, ListOf(n1, o2), l);
      }
    }
  }

  /**
   * setupEmpty and setupBlack clear `p` from addWhite (when addWhite has no
   * duplicates): exclusivity does hold with respect to white.
   */
  lemma {:induction false} SetupClearsWhite(n: Node, p: PointOfPlay)
    requires !n.IsMove() && NoDuplicates(n.addWhite)
    requires p !in n.addEmpty && p !in n.addBlack
    ensures p !in SetupEmpty(n, p).addWhite && NoDuplicates(SetupEmpty(n, p).addWhite)
    ensures p !in SetupBlack(n, p).addWhite && NoDuplicates(SetupBlack(n, p).addWhite)
  {
    RemoveFirstNoDup(n.addWhite, p);
    if p !in n.addWhite {
      assert RemoveFirst(n.addWhite, p) == n.addWhite;
    }
  }

  /**
   * The interface documents the three lists as mutually exclusive with the
   * last designation winning. Because remDup only ever removes from
   * addWhite, a point set black and then white ends up in both lists, and a
   * point set black and then empty stays black.
   */
  lemma LastDesignationDoesNotWin()
    ensures var p := PointOfPlay(3, 3);
      var n := SetupBlack(SetupNode(0, RootNode(0)), p);
      var nw := SetupWhite(n, p);
      var ne := SetupEmpty(n, p);
      p in nw.addBlack && p in nw.addWhite && p in ne.addBlack && p in ne.addEmpty
  {
    var p := PointOfPlay(3, 3);
    var n := SetupBlack(SetupNode(0, RootNode(0)), p);
    assert n.addBlack == [p] && n.addWhite == [] && n.addEmpty == [];
    var nw := SetupWhite(n, p);
    assert nw.addWhite == [p] && nw.addBlack == [p];
    var ne := SetupEmpty(n, p);
    assert ne.addEmpty == [p] && ne.addBlack == [p];
  }

  /**
   * undoSetupEmpty and undoSetupWhite remove from addWhite only; undoSetupBlack
   * removes the first `p` from addBlack only.
   */
  lemma {:induction false} UndoSetupLists(n: Node, p: PointOfPlay)
    requires !n.IsMove()
    ensures UndoSetupEmpty(n, p).addEmpty == n.addEmpty
    ensures UndoSetupEmpty(n, p).addWhite
            == (if p in n.addEmpty then RemoveFirst(n.addWhite, p) else n.addWhite)
    ensures UndoSetupWhite(n, p).addWhite == RemoveFirst(n.addWhite, p)
    ensures UndoSetupBlack(n, p).addBlack == RemoveFirst(n.addBlack, p)
    ensures UndoSetupBlack(n, p).addWhite == n.addWhite
    ensures p in n.addEmpty && p !in n.addWhite ==> UndoSetupEmpty(n, p) == n
  {
    if p !in n.addWhite {
      assert RemoveFirst(n.addWhite, p) == n.addWhite;
    }
  }

  /** getSetupInfo: the lists in the order empty, black, white. */
  function SetupInfo(n: Node): (r: seq<seq<PointOfPlay>>)
    ensures |r| == 3 && r[0] == n.addEmpty && r[1] == n.addBlack && r[2] == n.addWhite
  {
    [n.addEmpty, n.addBlack, n.addWhite]
  }

  // ---- coordinate conversions ----

  /**
   * A Java `(char)` cast of an int. Java chars are UTF-16 code units; code
   * units in the surrogate range have no Dafny `char` and become U+FFFD.
   */
  function JChar(n: int): char {
    var m := n % 0x1_0000;
    if 0xD800 <= m < 0xE000 then '�' else m as char
  }

  lemma JCharSmall(n: int)
    requires 0 <= n < 0xD800
    ensures JChar(n) as int == n
  {}

  function YEnglish(y: int): int { y + 1 }

  /**
   * Book column letter as written: 'a' + x below 9 and 'a' + x + 1 from 9 on.
   * The comment beside it says the letter 'i' is skipped, but column 8 is
   * 'i' and the letter skipped is 'j'.
   */
  function XEnglish(x: int): char {
    if x >= 9 then JChar('a' as int + x + 1) else JChar('a' as int + x)
  }

  /** The book convention the comment describes: 'a'..'h', then 'j'..'t'. */
  function XEnglishBook(x: int): char {
    if x >= 8 then JChar('a' as int + x + 1) else JChar('a' as int + x)
  }

  /** As written, the 19 columns get 'a'..'t' without 'j'; column 8 is 'i'. */
  lemma {:induction false} XEnglishSkipsJ(x: int, x': int)
    requires 0 <= x < Size && 0 <= x' < Size
    ensures 'a' <= XEnglish(x) <= 't' && XEnglish(x) != 'j'
    ensures XEnglish(x) == XEnglish(x') ==> x == x'
    ensures XEnglish(8) == 'i'
  {
    JCharSmall('a' as int + x + 1);
    JCharSmall('a' as int + x);
    JCharSmall('a' as int + x' + 1);
    JCharSmall('a' as int + x');
    JCharSmall('a' as int + 8);
    assert XEnglish(x) as int != 'j' as int;
  }

  /** The corrected letters run over 'a'..'t' without 'i', one per column. */
  lemma {:induction false} XEnglishBookSkipsI(x: int, x': int)
    requires 0 <= x < Size && 0 <= x' < Size
    ensures 'a' <= XEnglishBook(x) <= 't' && XEnglishBook(x) != 'i'
    ensures XEnglishBook(x) == XEnglishBook(x') ==> x == x'
    ensures XEnglishBook(8) == 'j'
  {
    JCharSmall('a' as int + x + 1);
    JCharSmall('a' as int + x);
    JCharSmall('a' as int + x' + 1);
    JCharSmall('a' as int + x');
    JCharSmall('a' as int + 9);
    assert XEnglishBook(x) as int != 'i' as int;
  }

  /** SGF column letter; a blank for PASS. */
  function XSgf(x: int): char {
    if x == Pass then ' ' else JChar('a' as int + x)
  }

  /** SGF row letter, counted from the top row ('a' is y = 18); a blank for PASS. */
  function YSgf(y: int): char {
    if y == Pass then ' ' else JChar('a' as int + 18 - y)
  }

  /** On the board the SGF letters are 'a'..'s' and tell points apart; "aa" is the upper-left corner. */
  lemma {:induction false} SgfOnBoard(p: PointOfPlay, q: PointOfPlay)
    requires OnBoard(p) && OnBoard(q)
    ensures 'a' <= XSgf(p.x) <= 's' && 'a' <= YSgf(p.y) <= 's'
    ensures XSgf(p.x) == XSgf(q.x) && YSgf(p.y) == YSgf(q.y) ==> p == q
    ensures XSgf(0) == 'a' && YSgf(Size - 1) == 'a'
  {
    JCharSmall('a' as int + p.x);
    JCharSmall('a' as int + q.x);
    JCharSmall('a' as int + 18 - p.y);
    JCharSmall('a' as int + 18 - q.y);
    JCharSmall('a' as int);
  }

  /** The documented example "W[dp]" for (3, 4) does not match: the code gives "do". */
  lemma DocumentedSgfExample()
    ensures XSgf(3) == 'd' && YSgf(4) == 'o' && YSgf(4) != 'p'
  {}

  // ---- toString ----

  function PointText(p: PointOfPlay): string {
    "[" + [XSgf(p.x), YSgf(p.y)] + "]"
  }

  function PointsText(pts: seq<PointOfPlay>): string {
    if |pts| == 0 then "" else PointsText(pts[..|pts| - 1]) + PointText(pts[|pts| - 1])
  }

  function Group(tag: string, pts: seq<PointOfPlay>): string {
    if |pts| > 0 then tag + PointsText(pts) else ""
  }

  /** toString: color[xy] for a play, else the AE, AW, AB groups; then C[comment] if any. */
  function NodeText(n: Node): string {
    var body := if n.IsMove() then [n.color] + PointText(PointOfPlay(n.x, n.y))
                else Group("AE", n.addEmpty) + Group("AW", n.addWhite) + Group("AB", n.addBlack);
    body + (if n.comment != "" then "C[" + n.comment + "]" else "")
  }

  /** The text of an on-board play without comment is five characters and names the play. */
  lemma {:induction false} PlayTextNamesMove(n: Node, m: Node)
    requires n.IsMove() && m.IsMove() && n.comment == "" && m.comment == ""
    requires OnBoard(PointOfPlay(n.x, n.y)) && OnBoard(PointOfPlay(m.x, m.y))
    ensures NodeText(n) == [n.color, '[', XSgf(n.x), YSgf(n.y), ']']
    ensures NodeText(n) == NodeText(m) ==> n.color == m.color && n.x == m.x && n.y == m.y
  {
    assert NodeText(m) == [m.color, '[', XSgf(m.x), YSgf(m.y), ']'];
    if NodeText(n) == NodeText(m) {
      assert NodeText(n)[2] == NodeText(m)[2] && NodeText(n)[3] == NodeText(m)[3];
      SgfOnBoard(PointOfPlay(n.x, n.y), PointOfPlay(m.x, m.y));
    }
  }

  /** A setup node lists its groups in the order AE, AW, AB, and only non-empty ones. */
  lemma SetupTextOrder(n: Node)
    requires n.IsSetup() && n.comment == ""
    ensures n.addEmpty == [] && n.addWhite == [] ==> NodeText(n) == Group("AB", n.addBlack)
    ensures n.addEmpty == [] && n.addWhite == [] && n.addBlack == [] ==> NodeText(n) == ""
    ensures n.addEmpty != [] ==> NodeText(n)[..2] == "AE"
  {}

  // ---- navigation ----

  /** next(): the first child, or the node itself when it has none. */
  function Next(self: nat, n: Node): (r: nat)
    ensures |n.children| == 0 ==> r == self
    ensures |n.children| > 0 ==> r == n.children[0] && r in n.children
  {
    if |n.children| == 0 then self else n.children[0]
  }

  /**
   * next(variation): children[variation] when 0 <= variation <= size (so
   * variation == size is an out-of-range read), else the first child, else
   * the node itself.
   */
  function NextVariation(self: nat, n: Node, variation: int): (r: Result<nat>)
  {
    if 0 <= variation <= |n.children| then
      if variation < |n.children| then Ok(n.children[variation]) else Err(IndexOutOfBounds)
    else if |n.children| == 0 then Ok(self)
    else Ok(n.children[0])
  }

  /**
   * next(v) agrees with children[v] for an existing variation and with next()
   * for a negative or too-large one, but a variation equal to the number of
   * children (including 0 on a leaf) fails instead of falling back.
   */
  lemma {:induction false} NextVariationAgrees(self: nat, n: Node, v: int)
    ensures 0 <= v < |n.children| ==> NextVariation(self, n, v) == Ok(n.children[v])
    ensures (v < 0 || v > |n.children|) ==> NextVariation(self, n, v) == Ok(Next(self, n))
    ensures v == |n.children| ==> NextVariation(self, n, v) == Err(IndexOutOfBounds)
  {
    if v < 0 || v > |n.children| {
      assert !(0 <= v <= |n.children|);
    }
  }

  // ---- the arena ----

  /**
   * All nodes of one game. Child indices are always greater than their
   * parent's, so walks down the tree terminate.
   */
  class GameTree {
    var nodes: seq<Node>

    ghost predicate Valid()
      reads this
    {
      |nodes| > 0 && nodes[0].IsRoot() && nodes[0].parent == 0
      && (forall i | 0 <= i < |nodes| :: KnownColor(nodes[i].color))
      && (forall i | 0 < i < |nodes| :: nodes[i].parent < i)
      && (forall i | 0 <= i < |nodes| :: ChildrenAfter(i, nodes[i].children, |nodes|))
    }

    static predicate ChildrenAfter(i: nat, cs: seq<nat>, count: nat) {
      forall k | 0 <= k < |cs| :: i < cs[k] < count
    }

    /** A new tree holding only its root node (`new Move()`). */
    constructor ()
      ensures Valid() && nodes == [RootNode(0)]
    {
      nodes := [RootNode(0)];
    }

    /** addChild: appends at the end of the child list. */
    method AddChild(n: nat, child: nat)
      requires Valid() && n < child < |nodes|
      modifies this
      ensures Valid()
      ensures nodes == old(nodes)[n := old(nodes)[n].(children := old(nodes)[n].children + [child])]
    {
      nodes := nodes[n := nodes[n].(children := nodes[n].children + [child])];
      assert forall i | 0 <= i < |nodes| && i != n :: nodes[i] == old(nodes)[i];
    }

    /** removeChild: drops the first occurrence of `child`, keeping the others in order. */
    method RemoveChild(n: nat, child: nat)
      requires Valid() && n < |nodes|
      modifies this
      ensures Valid()
      ensures nodes == old(nodes)[n := old(nodes)[n].(children := RemoveChildSpec(old(nodes)[n].children, child))]
    {
      var cs := RemoveChildSpec(nodes[n].children, child);
      RemoveChildAfter(n, nodes[n].children, child, |nodes|);
      nodes := nodes[n := nodes[n].(children := cs)];
      assert forall i | 0 <= i < |nodes| && i != n :: nodes[i] == old(nodes)[i];
    }

    /** The setup-node constructor: a new last child of `p`. */
    method NewSetup(p: nat) returns (id: nat)
      requires Valid() && p < |nodes|
      modifies this
      ensures Valid() && id == |old(nodes)| && |nodes| == id + 1
      ensures nodes == old(nodes)[p := old(nodes)[p].(children := old(nodes)[p].children + [id])]
                       + [SetupNode(p, old(nodes)[p])]
    {
      id := |nodes|;
      var n := SetupNode(p, nodes[p]);
      nodes := nodes + [n];
      AddChild(p, id);
    }

    /** The play-node constructor; a rejected colour changes nothing. */
    method NewPlay(x: int, y: int, pcolor: char, p: nat) returns (r: Result<nat>)
      requires Valid() && p < |nodes|
      modifies this
      ensures Valid()
      ensures r.Err? <==> PlayNode(x, y, pcolor, p, old(nodes)[p]).Err?
      ensures r.Err? ==> nodes == old(nodes) && r.fault == IllegalArgument
      ensures r.Ok? ==>
                r.value == |old(nodes)|
                && nodes == old(nodes)[p := old(nodes)[p].(children := old(nodes)[p].children + [r.value])]
                            + [PlayNode(x, y, pcolor, p, old(nodes)[p]).value]
    {
      var made := PlayNode(x, y, pcolor, p, nodes[p]);
      if made.Err? {
        return Err(made.fault);
      }
      var id := |nodes|;
      nodes := nodes + [made.value];
      AddChild(p, id);
      r := Ok(id);
    }

    /** Replaces a node's setup lists (or nothing else) keeping the tree shape. */
    method SetNode(n: nat, v: Node)
      requires Valid() && n < |nodes|
      requires v.children == nodes[n].children && v.parent == nodes[n].parent
      requires v.color == nodes[n].color
      modifies this
      ensures Valid() && nodes == old(nodes)[n := v]
    {
      nodes := nodes[n := v];
      assert forall i | 0 <= i < |nodes| && i != n :: nodes[i] == old(nodes)[i];
    }

    /** The private remDup: searches `list`, removes from addWhite. */
    method RemDupAt(n: nat, p: PointOfPlay, list: seq<PointOfPlay>)
      requires Valid() && n < |nodes|
      modifies this
      ensures Valid() && nodes == old(nodes)[n := RemDup(old(nodes)[n], p, list)]
    {
      var i := 0;
      while i < |list|
        invariant 0 <= i <= |list|
        invariant p !in list[..i]
        invariant nodes == old(nodes)
      {
        if Points.Equals(list[i], p) {
          SetNode(n, nodes[n].(addWhite := RemoveFirst(nodes[n].addWhite, p)));
          return;
        }
        i := i + 1;
      }
      assert list[..i] == list;
    }

    /** The private setup helper, searching the target list first. */
    method SetupAt(n: nat, x: int, y: int, target: SetupList, other1: SetupList, other2: SetupList)
      requires Valid() && n < |nodes|
      modifies this
      ensures Valid()
      ensures nodes == old(nodes)[n := Setup(old(nodes)[n], target, other1, other2, PointOfPlay(x, y))]
    {
      var temp := NewPoint(x, y).value;
      if nodes[n].IsMove() {
        return;
      }
      var list := ListOf(nodes[n], target);
      var i := 0;
      while i < |list|
        invariant 0 <= i <= |list|
        invariant temp !in list[..i]
      {
        if Points.Equals(list[i], temp) {
          return;
        }
        i := i + 1;
      }
      assert list[..i] == list;
      RemDupAt(n, temp, ListOf(nodes[n], other1));
      RemDupAt(n, temp, ListOf(nodes[n], other2));
      SetNode(n, WithList(nodes[n], target, ListOf(nodes[n], target) + [temp]));
    }

    method SetupEmptyAt(n: nat, x: int, y: int)
      requires Valid() && n < |nodes|
      modifies this
      ensures Valid() && nodes == old(nodes)[n := SetupEmpty(old(nodes)[n], PointOfPlay(x, y))]
    {
      SetupAt(n, x, y, EmptyList, WhiteList, BlackList);
    }

    method SetupWhiteAt(n: nat, x: int, y: int)
      requires Valid() && n < |nodes|
      modifies this
      ensures Valid() && nodes == old(nodes)[n := SetupWhite(old(nodes)[n], PointOfPlay(x, y))]
    {
      SetupAt(n, x, y, WhiteList, EmptyList, BlackList);
    }

    method SetupBlackAt(n: nat, x: int, y: int)
      requires Valid() && n < |nodes|
      modifies this
      ensures Valid() && nodes == old(nodes)[n := SetupBlack(old(nodes)[n], PointOfPlay(x, y))]
    {
      SetupAt(n, x, y, BlackList, WhiteList, EmptyList);
    }

    method UndoSetupEmptyAt(n: nat, x: int, y: int)
      requires Valid() && n < |nodes|
      modifies this
      ensures Valid() && nodes == old(nodes)[n := UndoSetupEmpty(old(nodes)[n], PointOfPlay(x, y))]
    {
      var temp := NewPoint(x, y).value;
      if nodes[n].IsMove() {
        return;
      }
      RemDupAt(n, temp, nodes[n].addEmpty);
    }

    method UndoSetupWhiteAt(n: nat, x: int, y: int)
      requires Valid() && n < |nodes|
      modifies this
      ensures Valid() && nodes == old(nodes)[n := UndoSetupWhite(old(nodes)[n], PointOfPlay(x, y))]
    {
      var temp := NewPoint(x, y).value;
      if nodes[n].IsMove() {
        return;
      }
      RemDupAt(n, temp, nodes[n].addWhite);
    }

    /** undoSetupBlack: walks addBlack and removes the first equal point. */
    method UndoSetupBlackAt(n: nat, x: int, y: int)
      requires Valid() && n < |nodes|
      modifies this
      ensures Valid() && nodes == old(nodes)[n := UndoSetupBlack(old(nodes)[n], PointOfPlay(x, y))]
    {
      var temp := NewPoint(x, y).value;
      var points := nodes[n].addBlack;
      if nodes[n].IsMove() {
        return;
      }
      var i := 0;
      while i < |points|
        invariant 0 <= i <= |points|
        invariant temp !in points[..i]
      {
        if Points.Equals(points[i], temp) {
          SetNode(n, nodes[n].(addBlack := RemoveFirst(nodes[n].addBlack, temp)));
          return;
        }
        i := i + 1;
      }
      assert points[..i] == points;
    }

    /** setColorMoveNext: allowed on setup and root nodes only. */
    method SetColorMoveNext(n: nat, nextColor: char) returns (r: Outcome)
      requires Valid() && n < |nodes|
      modifies this
      ensures Valid()
      ensures r == Done <==> old(nodes)[n].IsSetup() || old(nodes)[n].IsRoot()
      ensures r != Done ==> r == Thrown(Unsupported) && nodes == old(nodes)
      ensures r == Done ==> nodes == old(nodes)[n := old(nodes)[n].(colorMoveNext := nextColor)]
    {
      if nodes[n].color == MoveSetup || nodes[n].color == MoveRoot {
        SetNode(n, nodes[n].(colorMoveNext := nextColor));
        r := Done;
      } else {
        r := Thrown(Unsupported);
      }
    }

    method SetComment(n: nat, aComment: string)
      requires Valid() && n < |nodes|
      modifies this
      ensures Valid() && nodes == old(nodes)[n := old(nodes)[n].(comment := aComment)]
    {
      SetNode(n, nodes[n].(comment := aComment));
    }

    /** toString, appending each group's points in a loop. */
    method ToText(n: nat) returns (s: string)
      requires Valid() && n < |nodes|
      ensures s == NodeText(nodes[n])
    {
      s := NodeToText(nodes[n]);
    }

    static method NodeToText(node: Node) returns (s: string)
      ensures s == NodeText(node)
    {
      var body: string;
      if node.IsMove() {
        body := [node.color] + "[" + [XSgf(node.x), YSgf(node.y)] + "]";
      } else {
        body := SetupText(node);
      }
      if node.comment != "" {
        s := body + "C[" + node.comment + "]";
      } else {
        s := body;
      }
    }

    static method SetupText(node: Node) returns (s: string)
      ensures s == Group("AE", node.addEmpty) + Group("AW", node.addWhite) + Group("AB", node.addBlack)
    {
      s := "";
      if |node.addEmpty| > 0 {
        s := AppendGroup(s, "AE", node.addEmpty);
      }
      if |node.addWhite| > 0 {
        s := AppendGroup(s, "AW", node.addWhite);
      }
      if |node.addBlack| > 0 {
        s := AppendGroup(s, "AB", node.addBlack);
      }
    }

    static method AppendGroup(s0: string, tag: string, pts: seq<PointOfPlay>) returns (s: string)
      requires |pts| > 0
      ensures s == s0 + Group(tag, pts)
    {
      s := s0 + tag;
      var i := 0;
      while i < |pts|
        invariant 0 <= i <= |pts|
        invariant s == s0 + tag + PointsText(pts[..i])
      {
        assert pts[..i + 1][..i] == pts[..i];
        s := s + "[" + [XSgf(pts[i].x), YSgf(pts[i].y)] + "]";
        i := i + 1;
      }
      assert pts[..i] == pts;
    }
  }
}
