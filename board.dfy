/**
 * The board (leelawatcher/goboard/Board.java): the positions of the line
 * of play from the start to the current move, a cursor into that list, the
 * prisoner counts and the game record. Positions are kept as values; the
 * board replaces the current one where the engine changes it in place.
 */
module Boards {
  import opened Base
  import opened Points
  import opened Rows
  import opened Positions
  import opened MoveTree
  import opened Markable
  import opened Rules
  import opened Games

  /** A position with the prisoner counts reached so far. */
  datatype Tally = Tally(pos: PosVal, whiteHasCap: int, blackHasCap: int)

  /** The black stones among s. */
  ghost function BlackIn(v: PosVal, s: set<PointOfPlay>): set<PointOfPlay>
    requires Shaped(v)
  {
    set q | q in s && OnBoard(q) && BlackAt(v, q)
  }

  /** u is v with the points of d emptied and nothing else changed. */
  ghost predicate Removed(v: PosVal, d: set<PointOfPlay>, u: PosVal)
    requires Shaped(v) && Shaped(u)
  {
    u.blackToMove == v.blackToMove && u.moveNum == v.moveNum
    && forall q | OnBoard(q) ::
         (BlackAt(u, q) <==> BlackAt(v, q) && q !in d) && (WhiteAt(u, q) <==> WhiteAt(v, q) && q !in d)
  }

  /**
   * captureGroup(n) on t: the group of n is emptied; each black stone is a
   * prisoner for white and each other stone one for black.
   */
  ghost function CaptureGroupOf(s: Tally, n: PointOfPlay): Tally
    requires Shaped(s.pos)
  {
    var t := s.pos;
    var g := GroupOf(t, n);
    Tally(Without(t, g), s.whiteHasCap + |BlackIn(t, g)|, s.blackHasCap + |g - BlackIn(t, g)|)
  }

  /**
   * One neighbour in doMove: skip it off the board; stoneAt checks the
   * position; a stone whose blackAt equals the mover's flag and whose group
   * has no liberty left is captured.
   */
  ghost function CaptureStep(s: Tally, n: PointOfPlay, wmove: bool): Result<Tally>
    requires Shaped(s.pos)
  {
    var t := s.pos;
    if !OnBoard(n) then Ok(s)
    else if !CheckPasses(t) then Err(InvalidPosition)
    else if StoneAt(t, n) && BlackAt(t, n) == wmove && FillLibs(t, {}, n) == 0 then Ok(CaptureGroupOf(s, n))
    else Ok(s)
  }

  ghost function CaptureThen(r: Result<Tally>, n: PointOfPlay, wmove: bool): Result<Tally>
    requires r.Ok? ==> Shaped(r.value.pos)
  {
    if r.Err? then r else CaptureStep(r.value, n, wmove)
  }

  /** The four neighbours in doMove's order: (x, y+1), (x+1, y), (x, y-1), (x-1, y). */
  ghost function AfterCaptures(s: Tally, p: PointOfPlay, wmove: bool): Result<Tally>
    requires Shaped(s.pos)
  {
    var r1 := CaptureStep(s, North(p), wmove);
    var r2 := CaptureThen(r1, East(p), wmove);
    var r3 := CaptureThen(r2, South(p), wmove);
    CaptureThen(r3, West(p), wmove)
  }

  /** The points holding a black stone. */
  ghost function Blacks(v: PosVal): set<PointOfPlay>
    requires Shaped(v)
  {
    set q | q in AllPoints() && BlackAt(v, q)
  }

  /** The points holding a white stone. */
  ghost function Whites(v: PosVal): set<PointOfPlay>
    requires Shaped(v)
  {
    set q | q in AllPoints() && WhiteAt(v, q)
  }

  /**
   * u arises from t by removing stones of the colour wmove names as the
   * opponent (black when wmove): no stone appears, none of the mover's
   * stones goes, and the side to move and the number are kept.
   */
  ghost predicate Pruned(t: PosVal, u: PosVal, wmove: bool)
    requires Shaped(t) && Shaped(u)
  {
    u.blackToMove == t.blackToMove && u.moveNum == t.moveNum
    && (forall q | OnBoard(q) :: (BlackAt(u, q) ==> BlackAt(t, q)) && (WhiteAt(u, q) ==> WhiteAt(t, q)))
    && (forall q | OnBoard(q) :: if wmove then WhiteAt(u, q) == WhiteAt(t, q) else BlackAt(u, q) == BlackAt(t, q))
  }

  /**
   * The prisoners taken between s and u are the stones that went: when
   * white moves, each black stone removed counts once for white and black's
   * count stays; the other way round when black moves.
   */
  ghost predicate PrisonersCounted(s: Tally, u: Tally, wmove: bool)
    requires Shaped(s.pos) && Shaped(u.pos)
  {
    if wmove then
      u.blackHasCap == s.blackHasCap && u.whiteHasCap == s.whiteHasCap + |Blacks(s.pos) - Blacks(u.pos)|
    else
      u.whiteHasCap == s.whiteHasCap && u.blackHasCap == s.blackHasCap + |Whites(s.pos) - Whites(u.pos)|
  }

  lemma NestedDiff<T>(a: set<T>, b: set<T>, c: set<T>)
    requires c <= b <= a
    ensures |a - c| == |a - b| + |b - c|
  {
    assert a - c == (a - b) + (b - c);
    assert (a - b) !! (b - c);
  }

  /** Every point of g holds a black stone when black is true and a white one otherwise. */
  ghost predicate AllOf(t: PosVal, g: set<PointOfPlay>, black: bool)
    requires Shaped(t)
  {
    forall q | q in g :: OnBoard(q) && BlackAt(t, q) == black && WhiteAt(t, q) == !black
  }

  lemma GroupColours(t: PosVal, n: PointOfPlay)
    requires Tidy(t) && NoOverlap(t) && OnBoard(n) && StoneAt(t, n)
    ensures AllOf(t, GroupOf(t, n), BlackAt(t, n))
  {
    forall q | q in GroupOf(t, n)
      ensures OnBoard(q) && BlackAt(t, q) == BlackAt(t, n) && WhiteAt(t, q) == !BlackAt(t, n)
    {
      GroupSameColour(t, n, q);
    }
  }

  /** Emptying points that all hold the opponent's colour prunes the position by exactly those points. */
  lemma WithoutPrunes(t: PosVal, g: set<PointOfPlay>, wmove: bool)
    requires Tidy(t) && AllOf(t, g, wmove)
    ensures var u := Without(t, g);
      Tidy(u) && Pruned(t, u, wmove)
      && Blacks(t) - Blacks(u) == (if wmove then g else {})
      && Whites(t) - Whites(u) == (if wmove then {} else g)
  {
    var u := Without(t, g);
    WithoutEffect(t, g);
    assert Blacks(t) - Blacks(u) == (if wmove then g else {}) by {
      forall q ensures q in Blacks(t) - Blacks(u) <==> q in (if wmove then g else {}) {
        AllPointsOnBoard(q);
      }
    }
    assert Whites(t) - Whites(u) == (if wmove then {} else g) by {
      forall q ensures q in Whites(t) - Whites(u) <==> q in (if wmove then {} else g) {
        AllPointsOnBoard(q);
      }
    }
  }

  lemma BlackInAllOf(t: PosVal, g: set<PointOfPlay>, black: bool)
    requires Shaped(t) && AllOf(t, g, black)
    ensures BlackIn(t, g) == (if black then g else {})
  {}

  /** A group whose colour matches wmove's opponent is removed whole and counted as the source counts it. */
  lemma CaptureGroupEffect(s: Tally, n: PointOfPlay, wmove: bool)
    requires Tidy(s.pos) && NoOverlap(s.pos) && OnBoard(n) && StoneAt(s.pos, n) && BlackAt(s.pos, n) == wmove
    ensures var u := CaptureGroupOf(s, n);
      Tidy(u.pos) && Pruned(s.pos, u.pos, wmove) && PrisonersCounted(s, u, wmove)
  {
    var t := s.pos;
    var g := GroupOf(t, n);
    GroupColours(t, n);
    WithoutPrunes(t, g, wmove);
    BlackInAllOf(t, g, wmove);
    if wmove {
      assert g - BlackIn(t, g) == {};
    } else {
      assert g - BlackIn(t, g) == g;
    }
  }

  /**
   * On a well-formed position a neighbour step never throws, keeps the
   * position well formed, removes only opponent stones and counts each one.
   */
  lemma CaptureStepEffect(s: Tally, n: PointOfPlay, wmove: bool)
    requires Tidy(s.pos) && NoOverlap(s.pos)
    ensures CaptureStep(s, n, wmove).Ok?
    ensures var u := CaptureStep(s, n, wmove).value;
      Tidy(u.pos) && NoOverlap(u.pos) && Pruned(s.pos, u.pos, wmove) && PrisonersCounted(s, u, wmove)
  {
    CheckValidIff(s.pos);
    var u := CaptureStep(s, n, wmove).value;
    if u == s {
      assert Blacks(s.pos) - Blacks(u.pos) == {};
      assert Whites(s.pos) - Whites(u.pos) == {};
    } else {
      CaptureGroupEffect(s, n, wmove);
    }
  }

  lemma PrunedTrans(t: PosVal, u: PosVal, w: PosVal, wmove: bool)
    requires Shaped(t) && Shaped(u) && Shaped(w) && Pruned(t, u, wmove) && Pruned(u, w, wmove)
    ensures Pruned(t, w, wmove)
  {}

  lemma PrunedSubsets(t: PosVal, u: PosVal, wmove: bool)
    requires Shaped(t) && Shaped(u) && Pruned(t, u, wmove)
    ensures Blacks(u) <= Blacks(t) && Whites(u) <= Whites(t)
  {
    forall q | q in Blacks(u) ensures q in Blacks(t) {
      AllPointsOnBoard(q);
    }
    forall q | q in Whites(u) ensures q in Whites(t) {
      AllPointsOnBoard(q);
    }
  }

  /** Two counted stretches of captures make one. */
  lemma CountedTrans(s: Tally, u: Tally, w: Tally, wmove: bool)
    requires Shaped(s.pos) && Shaped(u.pos) && Shaped(w.pos)
    requires Pruned(s.pos, u.pos, wmove) && Pruned(u.pos, w.pos, wmove)
    requires PrisonersCounted(s, u, wmove) && PrisonersCounted(u, w, wmove)
    ensures PrisonersCounted(s, w, wmove)
  {
    PrunedSubsets(s.pos, u.pos, wmove);
    PrunedSubsets(u.pos, w.pos, wmove);
    NestedDiff(Blacks(s.pos), Blacks(u.pos), Blacks(w.pos));
    NestedDiff(Whites(s.pos), Whites(u.pos), Whites(w.pos));
  }

  /**
   * The four neighbour steps of doMove on a well-formed position: no
   * exception, a well-formed result, only opponent stones removed and each
   * counted once for the mover.
   */
  lemma AfterCapturesEffect(s: Tally, p: PointOfPlay, wmove: bool)
    requires Tidy(s.pos) && NoOverlap(s.pos)
    ensures AfterCaptures(s, p, wmove).Ok?
    ensures var u := AfterCaptures(s, p, wmove).value;
      Tidy(u.pos) && NoOverlap(u.pos) && Pruned(s.pos, u.pos, wmove) && PrisonersCounted(s, u, wmove)
  {
    CaptureStepEffect(s, North(p), wmove);
    var s1 := CaptureStep(s, North(p), wmove).value;
    CaptureStepEffect(s1, East(p), wmove);
    var s2 := CaptureStep(s1, East(p), wmove).value;
    CaptureStepEffect(s2, South(p), wmove);
    var s3 := CaptureStep(s2, South(p), wmove).value;
    CaptureStepEffect(s3, West(p), wmove);
    var s4 := CaptureStep(s3, West(p), wmove).value;
    PrunedTrans(s.pos, s1.pos, s2.pos, wmove);
    CountedTrans(s, s1, s2, wmove);
    PrunedTrans(s.pos, s2.pos, s3.pos, wmove);
    CountedTrans(s, s2, s3, wmove);
    PrunedTrans(s.pos, s3.pos, s4.pos, wmove);
    CountedTrans(s, s3, s4, wmove);
  }

  /** A legal play other than a pass is on the board, on an empty point of a checked position. */
  lemma LegalPlay(cur: PosVal, p: PointOfPlay, whiteMove: bool, h: seq<PosVal>)
    requires Tidy(cur) && AllShaped(h) && LegalTest(cur, p, whiteMove, h) == Ok(true)
    ensures p.x != Pass ==> OnBoard(p) && CheckPasses(cur) && NoOverlap(cur) && !StoneAt(cur, p)
  {
    CheckValidIff(cur);
  }

  /**
   * The node doMove hangs, a root (free handicap) or a play at p on an
   * empty point or a pass, derives a well-formed position whenever it
   * derives one.
   */
  lemma DerivedWellFormed(cur: PosVal, p: PointOfPlay, m: Node)
    requires Tidy(cur)
    requires m.IsRoot() || (m.IsMove() && m.x == p.x && m.y == p.y)
    requires m.IsMove() && p.x != Pass ==> OnBoard(p) && NoOverlap(cur) && !StoneAt(cur, p)
    ensures Derive(cur, m).Ok? ==> Tidy(Derive(cur, m).value) && NoOverlap(Derive(cur, m).value)
  {
    if Derive(cur, m).Ok? {
      DeriveChecksPrev(cur, m);
      CheckValidIff(cur);
      if m.IsMove() && !m.IsPass() {
        PlayEffect(cur, m);
      }
    }
  }

  // ---- setUp ----

  /** One doSetup request: the point and the list it is filed in. */
  datatype Request = Request(kind: char, at: PointOfPlay)

  function Requests(kind: char, pts: seq<PointOfPlay>): (r: seq<Request>)
    ensures |r| == |pts| && forall i | 0 <= i < |pts| :: r[i] == Request(kind, pts[i])
  {
    seq(|pts|, i requires 0 <= i < |pts| => Request(kind, pts[i]))
  }

  /** One more point gives one more request, at the end. */
  lemma RequestsSnoc(before: seq<Request>, kind: char, pts: seq<PointOfPlay>, i: nat)
    requires i < |pts|
    ensures before + Requests(kind, pts[..i + 1]) == before + Requests(kind, pts[..i]) + [Request(kind, pts[i])]
  {
    assert Requests(kind, pts[..i + 1]) == Requests(kind, pts[..i]) + [Request(kind, pts[i])];
  }

  /** The requests setUp makes, in its order: the white points, then the black, then the empty. */
  function SetUpRequests(white: seq<PointOfPlay>, black: seq<PointOfPlay>, empty: seq<PointOfPlay>): seq<Request> {
    Requests(MoveWhite, white) + Requests(MoveBlack, black) + Requests(EmptyPoint, empty)
  }

  /** The node after filing each request in turn. */
  function FiledAll(n: Node, reqs: seq<Request>): (r: Node)
    ensures r.color == n.color && r.parent == n.parent && r.children == n.children
    ensures r.comment == n.comment && r.colorMoveNext == n.colorMoveNext
    decreases |reqs|
  {
    if |reqs| == 0 then n
    else
      var last := reqs[|reqs| - 1];
      Filed(FiledAll(n, reqs[..|reqs| - 1]), last.kind, last.at.x, last.at.y)
  }

  /** Filing a point does not look at, or touch, who moves next. */
  lemma FiledNext(n: Node, kind: char, x: int, y: int, c: char)
    ensures Filed(n.(colorMoveNext := c), kind, x, y) == Filed(n, kind, x, y).(colorMoveNext := c)
  {}

  /**
   * Where a run of doSetup calls with these requests leaves the tree that
   * started as nodes0 with current node c0 and previous node pm: nothing
   * changes without a request; otherwise a current setup node is reused,
   * or else one new setup node is hung below pm, and that node holds every
   * request filed in order, with `next` to move.
   */
  ghost predicate Session(nodes: seq<Node>, cm: nat, nodes0: seq<Node>, c0: nat, pm: nat, next: char, reqs: seq<Request>)
    requires c0 < |nodes0| && pm < |nodes0|
  {
    if |reqs| == 0 then nodes == nodes0 && cm == c0
    else
      var reuse := nodes0[c0].IsSetup();
      var k := if reuse then c0 else |nodes0|;
      var base := if reuse then nodes0[c0] else SetupNode(pm, nodes0[pm]);
      var rest := if reuse then nodes0
                  else nodes0[pm := nodes0[pm].(children := nodes0[pm].children + [|nodes0|])] + [base];
      cm == k && nodes == rest[k := FiledAll(base, reqs).(colorMoveNext := next)]
  }

  /** The current node stays the same exactly when there was no request or it was a setup node already. */
  lemma SessionKeepsNode(nodes: seq<Node>, cm: nat, nodes0: seq<Node>, c0: nat, pm: nat, next: char, reqs: seq<Request>)
    requires c0 < |nodes0| && pm < |nodes0| && Session(nodes, cm, nodes0, c0, pm, next, reqs)
    ensures cm == c0 <==> |reqs| == 0 || nodes0[c0].IsSetup()
    ensures |reqs| > 0 ==> cm < |nodes| && nodes[cm].IsSetup() && nodes[cm].colorMoveNext == next
  {}

  /** One more doSetup call extends the session by its request. */
  lemma SessionStep(nodes: seq<Node>, cm: nat, nodes0: seq<Node>, c0: nat, pm: nat, next: char,
                    reqs: seq<Request>, r: Request, nodes': seq<Node>, cm': nat)
    requires c0 < |nodes0| && pm < |nodes0| && Session(nodes, cm, nodes0, c0, pm, next, reqs)
    requires cm < |nodes| && pm < |nodes|
    requires nodes[cm].IsSetup() ==>
               cm' == cm && nodes' == nodes[cm := Filed(nodes[cm], r.kind, r.at.x, r.at.y).(colorMoveNext := next)]
    requires !nodes[cm].IsSetup() ==>
               cm' == |nodes|
               && nodes' == nodes[pm := nodes[pm].(children := nodes[pm].children + [cm'])]
                            + [Filed(SetupNode(pm, nodes[pm]), r.kind, r.at.x, r.at.y).(colorMoveNext := next)]
    ensures Session(nodes', cm', nodes0, c0, pm, next, reqs + [r])
  {
    var reqs' := reqs + [r];
    assert reqs'[..|reqs'| - 1] == reqs;
    if |reqs| == 0 {
      assert FiledAll(nodes0[c0], reqs') == Filed(nodes0[c0], r.kind, r.at.x, r.at.y);
      assert FiledAll(SetupNode(pm, nodes0[pm]), reqs') == Filed(SetupNode(pm, nodes0[pm]), r.kind, r.at.x, r.at.y);
    } else {
      var reuse := nodes0[c0].IsSetup();
      var base := if reuse then nodes0[c0] else SetupNode(pm, nodes0[pm]);
      FiledNext(FiledAll(base, reqs), r.kind, r.at.x, r.at.y, next);
    }
  }

  // ---- removing stones one at a time ----

  lemma RemovedNone(v: PosVal)
    requires Shaped(v)
    ensures Removed(v, {}, v)
  {}

  /** Removing one more stone of the group keeps the removal exact. */
  lemma RemoveOneMore(v: PosVal, d: set<PointOfPlay>, u: PosVal, q: PointOfPlay)
    requires Tidy(v) && NoOverlap(v) && Tidy(u) && Removed(v, d, u)
    requires OnBoard(q) && StoneAt(v, q) && q !in d
    ensures CheckPasses(u) && StoneAt(u, q) && BlackAt(u, q) == BlackAt(v, q)
    ensures Tidy(RemoveVal(u, q)) && Removed(v, d + {q}, RemoveVal(u, q))
  {
    assert NoOverlap(u) by {
      forall r | OnBoard(r) ensures !(BlackAt(u, r) && WhiteAt(u, r)) {
        assert !(BlackAt(v, r) && WhiteAt(v, r));
      }
    }
    CheckValidIff(u);
    RemoveEffect(u, q);
  }

  /** The black count grows by one exactly when the removed stone is black. */
  lemma BlackInStep(v: PosVal, d: set<PointOfPlay>, q: PointOfPlay)
    requires Shaped(v) && OnBoard(q) && q !in d
    ensures |BlackIn(v, d + {q})| == |BlackIn(v, d)| + (if BlackAt(v, q) then 1 else 0)
    ensures |(d + {q}) - BlackIn(v, d + {q})| == |d - BlackIn(v, d)| + (if BlackAt(v, q) then 0 else 1)
  {
    if BlackAt(v, q) {
      assert BlackIn(v, d + {q}) == BlackIn(v, d) + {q};
      assert (d + {q}) - BlackIn(v, d + {q}) == d - BlackIn(v, d);
    } else {
      assert BlackIn(v, d + {q}) == BlackIn(v, d);
      assert (d + {q}) - BlackIn(v, d + {q}) == (d - BlackIn(v, d)) + {q};
    }
  }

  /** After capturing the stones of done from v: the stones are gone and each one is counted once. */
  ghost predicate Captured(v: PosVal, done: set<PointOfPlay>, w0: int, b0: int, t: Tally)
    requires Shaped(v) && Shaped(t.pos)
  {
    Removed(v, done, t.pos)
    && t.whiteHasCap == w0 + |BlackIn(v, done)|
    && t.blackHasCap == b0 + |done - BlackIn(v, done)|
  }

  /** Two lists that agree below their last index k differ at most at k. */
  lemma SameButAt<T>(s: seq<T>, t: seq<T>, k: nat)
    requires |s| == |t| == k + 1 && s[..k] == t[..k]
    ensures s == t[k := s[k]]
  {
    forall i | 0 <= i < k ensures s[i] == t[i] {
      assert s[i] == s[..k][i];
    }
  }

  /** Moving one element from the rest to the done part keeps the split of the whole. */
  lemma MoveOne<T>(rest: set<T>, done: set<T>, all: set<T>, q: T)
    requires q in rest && rest !! done && rest + done == all
    ensures (rest - {q}) !! (done + {q}) && (rest - {q}) + (done + {q}) == all
  {}

  /** Emptying no point changes nothing. */
  lemma WithoutNothing(v: PosVal)
    requires Tidy(v)
    ensures Without(v, {}) == v
  {
    WithoutEffect(v, {});
    SameStonesEqual(v, Without(v, {}));
  }

  /** A complete removal of s is Without(v, s). */
  lemma RemovedIsWithout(v: PosVal, s: set<PointOfPlay>, u: PosVal)
    requires Tidy(v) && Tidy(u) && Removed(v, s, u)
    ensures u == Without(v, s)
  {
    WithoutEffect(v, s);
    SameStonesEqual(u, Without(v, s));
  }

  lemma SnocUpdate<T>(s: seq<T>, v: T, x: T)
    ensures (s + [v])[|s| := x] == s + [x]
  {}

  class Board {
    var gm: Game
    var positions: seq<PosVal>
    var currPos: nat
    var whiteHasCap: int     // stones white has captured
    var blackHasCap: int

    /** The list of positions runs from the empty board to the current one, all well formed. */
    ghost predicate Stored()
      reads this
    {
      |positions| == currPos + 1 && positions[0] == EmptyVal()
      && forall i | 0 <= i < |positions| :: Tidy(positions[i])
    }

    ghost predicate Valid()
      reads this, gm, gm.tree
    {
      gm.Valid() && gm.sizeX == Size && gm.sizeY == Size && Stored()
    }

    /** `new Board()`: a game without handicap and the empty position. */
    constructor ()
      ensures Valid() && fresh(gm) && fresh(gm.tree)
      ensures positions == [EmptyVal()] && currPos == 0 && whiteHasCap == 0 && blackHasCap == 0
      ensures gm.handi == 0 && gm.whiteLast && !gm.gameOver && gm.tree.nodes == [RootNode(0)]
    {
      gm := new Game(0);
      positions := [EmptyVal()];
      currPos := 0;
      whiteHasCap := 0;
      blackHasCap := 0;
    }

    /** newGame: a fresh game with the given handicap and the empty position. */
    method NewGame(handi: int)
      modifies this
      ensures Valid() && fresh(gm) && fresh(gm.tree)
      ensures positions == [EmptyVal()] && currPos == 0 && whiteHasCap == 0 && blackHasCap == 0
      ensures gm.handi == handi && gm.handiLeft == handi && gm.whiteLast && !gm.gameOver
      ensures gm.tree.nodes == [RootNode(0)]
    {
      gm := new Game(handi);
      positions := [EmptyVal()];
      currPos := 0;
      whiteHasCap := 0;
      blackHasCap := 0;
    }

    /** A fresh Position object holding a position value. */
    static method Materialize(v: PosVal) returns (c: Position)
      requires Shaped(v)
      ensures fresh(c) && fresh(c.posBlack) && fresh(c.posWhite) && c.Valid() && c.Val() == v
    {
      var b := new bv32[Size](i => if 0 <= i < |v.black| then v.black[i] else 0);
      var w := new bv32[Size](i => if 0 <= i < |v.white| then v.white[i] else 0);
      assert b[..] == v.black;
      assert w[..] == v.white;
      c := new Position.Of(b, w, v.blackToMove, v.moveNum);
    }

    /** getCurrPos: a copy of the current position. */
    method GetCurrPos() returns (c: Position)
      requires Valid()
      ensures fresh(c) && fresh(c.posBlack) && fresh(c.posWhite) && c.Valid()
      ensures c.Val() == positions[currPos]
    {
      c := Materialize(positions[currPos]);
    }

    /** getBoardSize: reads the game's size text back as a number. */
    method GetBoardSize() returns (n: int)
      requires Valid()
      ensures n == Size
    {
      var t := gm.GetBoardSize();
      assert ':' !in t;
      n := IntOfText(t);
    }

    /** isOnBoard: both coordinates in 0 .. size-1. */
    method IsOnBoard(p: PointOfPlay) returns (b: bool)
      requires Valid()
      ensures b == OnBoard(p)
    {
      var size := GetBoardSize();
      b := p.x < size && p.x >= 0 && p.y < size && p.y >= 0;
    }

    /** isWhiteMove. */
    predicate IsWhiteMove()
      reads this, gm
    {
      gm.IsWMove()
    }

    /** countLiberties: the rules' count on a copy of the current position. */
    method CountLiberties(p: PointOfPlay) returns (r: Result<int>)
      requires Valid()
      ensures !OnBoard(p) ==> r == Err(IllegalArgument)
      ensures OnBoard(p) && !CheckPasses(positions[currPos]) ==> r == Err(InvalidPosition)
      ensures OnBoard(p) && CheckPasses(positions[currPos]) ==>
                r == Ok(FillLibs(positions[currPos], {}, p))
                && (StoneAt(positions[currPos], p) ==> r.value == |Liberties(positions[currPos], p)|)
    {
      var c := GetCurrPos();
      r := Rules.CountLiberties(p, c);
      if OnBoard(p) && CheckPasses(positions[currPos]) {
        CheckValidIff(positions[currPos]);
        FillLibsMeaning(positions[currPos], p);
      }
    }

    /** getGroupSet: the group of p in a markable copy of the current position. */
    method GroupSet(p: PointOfPlay) returns (r: Result<set<PointOfPlay>>)
      requires Valid()
      ensures !OnBoard(p) ==> r == Ok({})
      ensures OnBoard(p) && !CheckPasses(positions[currPos]) ==> r == Err(InvalidPosition)
      ensures OnBoard(p) && CheckPasses(positions[currPos]) ==> r == Ok(GroupOf(positions[currPos], p))
    {
      var c := GetCurrPos();
      var temp := new MarkablePosition(c);
      r := temp.GetGroupSet(p);
    }

    /** countGroup: the number of stones in p's group; none for an empty point. */
    method CountGroup(p: PointOfPlay) returns (r: Result<int>)
      requires Valid()
      ensures !OnBoard(p) ==> r == Ok(0)
      ensures OnBoard(p) && !CheckPasses(positions[currPos]) ==> r == Err(InvalidPosition)
      ensures OnBoard(p) && CheckPasses(positions[currPos]) ==>
                r.Ok? && (r.value == 0 <==> !StoneAt(positions[currPos], p))
                && r.value == |GroupOf(positions[currPos], p)|
    {
      var g := GroupSet(p);
      if g.Err? {
        return Err(g.fault);
      }
      r := Ok(|g.value|);
      GroupHasStart(positions[currPos], p);
    }

    /** captureStone: a stone at p becomes a prisoner of the other colour and is removed. */
    method CaptureStone(p: PointOfPlay) returns (r: Outcome)
      requires Stored()
      modifies this
      ensures Stored() && gm == old(gm) && currPos == old(currPos)
      ensures var v := old(positions[currPos]);
              var s := StoneAtXY(v, p.x, p.y);
              (s.Err? ==> r == Thrown(s.fault))
              && (s.Ok? ==> r == Done)
              && (s.Ok? && s.value ==>
                    positions == old(positions)[currPos := RemoveVal(v, p)]
                    && whiteHasCap == old(whiteHasCap) + (if BlackAt(v, p) then 1 else 0)
                    && blackHasCap == old(blackHasCap) + (if BlackAt(v, p) then 0 else 1))
              && (!(s.Ok? && s.value) ==>
                    positions == old(positions) && whiteHasCap == old(whiteHasCap)
                    && blackHasCap == old(blackHasCap))
    {
      var tmp := positions[currPos];
      var s := StoneAtXY(tmp, p.x, p.y);
      if s.Err? {
        return Thrown(s.fault);
      }
      if s.value {
        var b := BlackAtXY(tmp, p.x, p.y);
        if b.value {
          whiteHasCap := whiteHasCap + 1;
        } else {
          blackHasCap := blackHasCap + 1;
        }
        RemoveEffect(tmp, p);
        positions := positions[currPos := RemoveVal(tmp, p)];
      }
      r := Done;
    }

    /** One pass of captureGroup's loop: q, still on the board, is captured. */
    method CaptureNext(q: PointOfPlay, ghost v: PosVal, ghost d: set<PointOfPlay>, ghost w0: int, ghost b0: int,
                       ghost pre: seq<PosVal>)
      requires Stored() && Tidy(v) && NoOverlap(v) && Captured(v, d, w0, b0, Tally(positions[currPos], whiteHasCap, blackHasCap))
      requires OnBoard(q) && StoneAt(v, q) && q !in d
      requires |positions| == |pre| && positions[..currPos] == pre[..currPos]
      modifies this
      ensures Stored() && gm == old(gm) && currPos == old(currPos)
      ensures |positions| == |pre| && positions[..currPos] == pre[..currPos]
      ensures Captured(v, d + {q}, w0, b0, Tally(positions[currPos], whiteHasCap, blackHasCap))
    {
      ghost var u := positions[currPos];
      BlackInStep(v, d, q);
      RemoveOneMore(v, d, u, q);
      assert StoneAtXY(u, q.x, q.y) == Ok(true);
      var o := CaptureStone(q);
    }

    /** The loop of captureGroup: each member is captured in turn. */
    method CaptureMembers(members: set<PointOfPlay>, ghost v: PosVal)
      requires Stored() && positions[currPos] == v && NoOverlap(v)
      requires forall q | q in members :: OnBoard(q) && StoneAt(v, q)
      modifies this
      ensures Stored() && gm == old(gm) && currPos == old(currPos)
      ensures |positions| == |old(positions)| && positions[..currPos] == old(positions[..currPos])
      ensures Captured(v, members, old(whiteHasCap), old(blackHasCap), Tally(positions[currPos], whiteHasCap, blackHasCap))
    {
      ghost var pre := positions;
      ghost var done: set<PointOfPlay> := {};
      RemovedNone(v);
      assert BlackIn(v, done) == {};
      var rest := members;
      while rest != {}
        invariant Stored() && gm == old(gm) && currPos == old(currPos)
        invariant rest !! done && rest + done == members
        invariant |positions| == |pre| && positions[..currPos] == pre[..currPos]
        invariant Captured(v, done, old(whiteHasCap), old(blackHasCap), Tally(positions[currPos], whiteHasCap, blackHasCap))
        decreases |rest|
      {
        var q :| q in rest;
        CaptureNext(q, v, done, old(whiteHasCap), old(blackHasCap), pre);
        MoveOne(rest, done, members, q);
        rest := rest - {q};
        done := done + {q};
      }
      assert done == members;
    }

    /**
     * captureGroup: every stone of p's group is captured one by one; the
     * result is the size of the group.
     */
    method CaptureGroup(p: PointOfPlay) returns (r: Result<int>)
      requires Valid()
      modifies this
      ensures Valid() && gm == old(gm) && currPos == old(currPos)
      ensures !OnBoard(p) ==>
                r == Ok(0) && positions == old(positions)
                && whiteHasCap == old(whiteHasCap) && blackHasCap == old(blackHasCap)
      ensures OnBoard(p) && !old(CheckPasses(positions[currPos])) ==>
                r == Err(InvalidPosition) && positions == old(positions)
                && whiteHasCap == old(whiteHasCap) && blackHasCap == old(blackHasCap)
      ensures OnBoard(p) && old(CheckPasses(positions[currPos])) ==>
                var c := CaptureGroupOf(old(Tally(positions[currPos], whiteHasCap, blackHasCap)), p);
                r == Ok(|GroupOf(old(positions[currPos]), p)|)
                && positions == old(positions)[currPos := c.pos]
                && whiteHasCap == c.whiteHasCap && blackHasCap == c.blackHasCap
    {
      var g := GroupSet(p);
      if g.Err? {
        return Err(g.fault);
      }
      r := Ok(|g.value|);
      if OnBoard(p) {
        CaptureFound(p, g.value);
      }
    }

    /** captureGroup's loop over the group getGroupSet found for an on-board p. */
    method CaptureFound(p: PointOfPlay, g: set<PointOfPlay>)
      requires Valid() && OnBoard(p) && CheckPasses(positions[currPos]) && g == GroupOf(positions[currPos], p)
      modifies this
      ensures Valid() && gm == old(gm) && currPos == old(currPos)
      ensures var c := CaptureGroupOf(old(Tally(positions[currPos], whiteHasCap, blackHasCap)), p);
              positions == old(positions)[currPos := c.pos]
              && whiteHasCap == c.whiteHasCap && blackHasCap == c.blackHasCap
    {
      if g != {} {
        ghost var pre := positions;
        ghost var v := positions[currPos];
        CheckValidIff(v);
        CaptureMembers(g, v);
        RemovedIsWithout(v, g, positions[currPos]);
        SameButAt(positions, pre, currPos);
      } else {
        WithoutNothing(positions[currPos]);
      }
    }

    /**
     * One neighbour test of doMove: an on-board stone whose blackAt equals
     * wmove and whose group has no liberty left is captured with its group.
     */
    method CaptureIfDead(n: PointOfPlay, wmove: bool) returns (r: Outcome)
      requires Valid()
      modifies this
      ensures gm == old(gm) && currPos == old(currPos)
      ensures var c := CaptureStep(old(Tally(positions[currPos], whiteHasCap, blackHasCap)), n, wmove);
              (c.Err? ==> r == Thrown(c.fault))
              && (c.Ok? ==> r == Done && Valid() && positions == old(positions)[currPos := c.value.pos]
                            && whiteHasCap == c.value.whiteHasCap && blackHasCap == c.value.blackHasCap)
    {
      var on := IsOnBoard(n);
      if !on {
        return Done;
      }
      var t := positions[currPos];
      var stone := StoneAtXY(t, n.x, n.y);
      if stone.Err? {
        return Thrown(stone.fault);
      }
      var black := BlackAtXY(t, n.x, n.y);
      assert black.Ok?;
      if !(stone.value && black.value == wmove) {
        return Done;
      }
      var libs := CountLiberties(n);
      assert libs.Ok?;
      if libs.value == 0 {
        var g := CaptureGroup(n);
      }
      r := Done;
    }

    /** The four neighbour tests of doMove, in the order north, east, south, west. */
    method CaptureNeighbours(p: PointOfPlay, wmove: bool) returns (r: Outcome)
      requires Valid()
      modifies this
      ensures gm == old(gm) && currPos == old(currPos)
      ensures var c := AfterCaptures(old(Tally(positions[currPos], whiteHasCap, blackHasCap)), p, wmove);
              (c.Err? ==> r == Thrown(c.fault))
              && (c.Ok? ==> r == Done && Valid() && positions == old(positions)[currPos := c.value.pos]
                            && whiteHasCap == c.value.whiteHasCap && blackHasCap == c.value.blackHasCap)
    {
      r := CaptureIfDead(North(p), wmove);
      if r.Thrown? {
        return;
      }
      r := CaptureIfDead(East(p), wmove);
      if r.Thrown? {
        return;
      }
      r := CaptureIfDead(South(p), wmove);
      if r.Thrown? {
        return;
      }
      r := CaptureIfDead(West(p), wmove);
    }

    /** What isLegalMove says of (x, y) on the current position with the positions so far as history. */
    ghost function Legality(x: int, y: int): Result<bool>
      reads this, gm
      requires Stored()
    {
      LegalTest(positions[currPos], PointOfPlay(x, y), gm.IsWMove(), positions)
    }

    /** Nothing of the board or its game changed. */
    twostate predicate Unmoved()
      reads this, gm, gm.tree
    {
      positions == old(positions) && currPos == old(currPos) && whiteHasCap == old(whiteHasCap)
      && blackHasCap == old(blackHasCap) && gm == old(gm) && unchanged(gm) && unchanged(gm.tree)
    }

    /**
     * doMove(x, y): a failing legality test throws and changes nothing; a
     * game that is over ignores the move; otherwise the move goes ahead.
     */
    method DoMove(x: int, y: int) returns (r: Outcome)
      requires Valid()
      modifies this, gm, gm.tree
      ensures var legal := old(Legality(x, y));
              (legal.Err? ==> r == Thrown(legal.fault) && Unmoved())
              && (legal == Ok(false) ==> r == Thrown(IllegalMove) && Unmoved())
              && (legal == Ok(true) && old(gm.gameOver) ==> r == Done && Unmoved())
      ensures old(Legality(x, y)) == Ok(true) && !old(gm.gameOver) ==> Advanced(x, y, r)
    {
      var cur := GetCurrPos();
      var legal := IsLegalMove(PointOfPlay(x, y), cur, gm.IsWMove(), positions);
      if legal.Err? {
        return Thrown(legal.fault);
      }
      if !legal.value {
        return Thrown(IllegalMove);
      }
      if gm.gameOver {
        return Done;
      }
      r := Advance(x, y);
    }

    /**
     * What a legal move in a running game does: the game records it, the
     * cursor advances, the position derived from the new node is appended
     * (a derivation that throws leaves the cursor one past the list), and
     * the opponent groups around (x, y) left without liberties are captured.
     */
    twostate predicate Advanced(x: int, y: int, r: Outcome)
      reads this, gm, gm.tree
      requires old(Valid())
    {
      gm == old(gm) && gm.Valid() && currPos == old(currPos) + 1
      && (!old(gm.FreeHandicap()) ==>
            gm.tree.nodes[gm.currMove]
            == PlayNode(x, y, old(gm.NextColor()), old(gm.currMove), old(gm.tree.nodes[gm.currMove])).value)
      && var d := Derive(old(positions[currPos]), gm.tree.nodes[gm.currMove]);
         (d.Err? ==> r == Thrown(d.fault) && positions == old(positions))
         && (d.Ok? ==>
               var c := AfterCaptures(Tally(d.value, old(whiteHasCap), old(blackHasCap)), PointOfPlay(x, y), old(gm.IsWMove()));
               c.Ok? && r == Done && Valid() && positions == old(positions) + [c.value.pos]
               && whiteHasCap == c.value.whiteHasCap && blackHasCap == c.value.blackHasCap)
    }

    /** The part of doMove after the legality and game-over tests. */
    method Advance(x: int, y: int) returns (r: Outcome)
      requires Valid() && Legality(x, y) == Ok(true) && !gm.gameOver
      modifies this, gm, gm.tree
      ensures Advanced(x, y, r)
    {
      var p := PointOfPlay(x, y);
      var wmove := IsWhiteMove();
      var prev := positions[currPos];
      LegalPlay(prev, p, wmove, positions);
      var m := RecordMove(x, y);
      r := AppendDerived(prev, m, p, wmove);
    }

    /** `currPos++` and `gm.doMove(x, y)`: the node the new position derives from. */
    method RecordMove(x: int, y: int) returns (m: nat)
      requires Valid() && !gm.Ignored(x, y)
      modifies this, gm, gm.tree
      ensures gm == old(gm) && gm.Valid() && gm.sizeX == Size && gm.sizeY == Size
      ensures currPos == old(currPos) + 1 && positions == old(positions)
      ensures whiteHasCap == old(whiteHasCap) && blackHasCap == old(blackHasCap)
      ensures m == gm.currMove && m < |gm.tree.nodes|
      ensures !old(gm.FreeHandicap()) ==>
                gm.tree.nodes[m] == PlayNode(x, y, old(gm.NextColor()), old(gm.currMove), old(gm.tree.nodes[gm.currMove])).value
      ensures var n := gm.tree.nodes[m]; n.IsRoot() || (n.IsMove() && n.x == x && n.y == y)
    {
      currPos := currPos + 1;
      m := gm.DoMove(x, y);
    }

    /**
     * `positions.add(new Position(prev, node))` with the cursor already
     * advanced, then the neighbour captures.
     */
    method AppendDerived(prev: PosVal, m: nat, p: PointOfPlay, wmove: bool) returns (r: Outcome)
      requires gm.Valid() && gm.sizeX == Size && gm.sizeY == Size && m < |gm.tree.nodes|
      requires 0 < currPos == |positions| && positions[0] == EmptyVal()
      requires forall i | 0 <= i < |positions| :: Tidy(positions[i])
      requires prev == positions[currPos - 1] && Tidy(prev)
      requires var n := gm.tree.nodes[m]; n.IsRoot() || (n.IsMove() && n.x == p.x && n.y == p.y)
      requires gm.tree.nodes[m].IsMove() && p.x != Pass ==> OnBoard(p) && NoOverlap(prev) && !StoneAt(prev, p)
      modifies this
      ensures gm == old(gm) && currPos == old(currPos)
      ensures var d := Derive(prev, gm.tree.nodes[m]);
              (d.Err? ==> r == Thrown(d.fault) && positions == old(positions))
              && (d.Ok? ==>
                    var c := AfterCaptures(Tally(d.value, old(whiteHasCap), old(blackHasCap)), p, wmove);
                    c.Ok? && r == Done && Valid() && positions == old(positions) + [c.value.pos]
                    && whiteHasCap == c.value.whiteHasCap && blackHasCap == c.value.blackHasCap)
    {
      var d := Derive(prev, gm.tree.nodes[m]);
      if d.Err? {
        return Thrown(d.fault);
      }
      DerivedWellFormed(prev, p, gm.tree.nodes[m]);
      r := PushAndCapture(d.value, p, wmove);
    }

    /** The new position goes at the cursor, then its captures are taken. */
    method PushAndCapture(v: PosVal, p: PointOfPlay, wmove: bool) returns (r: Outcome)
      requires gm.Valid() && gm.sizeX == Size && gm.sizeY == Size
      requires 0 < currPos == |positions| && positions[0] == EmptyVal()
      requires forall i | 0 <= i < |positions| :: Tidy(positions[i])
      requires Tidy(v) && NoOverlap(v)
      modifies this
      ensures gm == old(gm) && currPos == old(currPos)
      ensures var c := AfterCaptures(Tally(v, old(whiteHasCap), old(blackHasCap)), p, wmove);
              c.Ok? && r == Done && Valid() && positions == old(positions) + [c.value.pos]
              && whiteHasCap == c.value.whiteHasCap && blackHasCap == c.value.blackHasCap
    {
      ghost var s0 := positions;
      positions := positions + [v];
      assert Valid() && positions[currPos] == v;
      AfterCapturesEffect(Tally(v, whiteHasCap, blackHasCap), p, wmove);
      r := CaptureNeighbours(p, wmove);
      SnocUpdate(s0, v, AfterCaptures(Tally(v, old(whiteHasCap), old(blackHasCap)), p, wmove).value.pos);
    }

    /** One round of a forEach loop of setUp: doSetup of one point. */
    method SetupOne(kind: char, q: PointOfPlay, blackToMove: bool,
                    ghost nodes0: seq<Node>, ghost c0: nat, ghost pm: nat, ghost reqs: seq<Request>)
      requires gm.Valid() && c0 < |nodes0| && pm < |nodes0| && gm.prevMove == pm
      requires Session(gm.tree.nodes, gm.currMove, nodes0, c0, pm, Predicted(blackToMove), reqs)
      modifies gm, gm.tree
      ensures gm.Valid() && gm.SettingsKept() && gm.prevMove == pm && gm.handiLeft == old(gm.handiLeft)
      ensures Session(gm.tree.nodes, gm.currMove, nodes0, c0, pm, Predicted(blackToMove), reqs + [Request(kind, q)])
      ensures gm.whiteLast == blackToMove && gm.TurnAgrees()
    {
      ghost var nodes := gm.tree.nodes;
      ghost var cm := gm.currMove;
      gm.DoSetup(kind, q.x, q.y, blackToMove);
      SessionStep(nodes, cm, nodes0, c0, pm, Predicted(blackToMove), reqs,
                  Request(kind, q), gm.tree.nodes, gm.currMove);
    }

    /** One of setUp's forEach loops: doSetup of each point with the given type. */
    method SetupEach(kind: char, pts: seq<PointOfPlay>, blackToMove: bool,
                     ghost nodes0: seq<Node>, ghost c0: nat, ghost pm: nat, ghost before: seq<Request>)
      requires gm.Valid() && c0 < |nodes0| && pm < |nodes0| && gm.prevMove == pm
      requires Session(gm.tree.nodes, gm.currMove, nodes0, c0, pm, Predicted(blackToMove), before)
      modifies gm, gm.tree
      ensures gm.Valid() && gm.SettingsKept() && gm.prevMove == pm && gm.handiLeft == old(gm.handiLeft)
      ensures Session(gm.tree.nodes, gm.currMove, nodes0, c0, pm, Predicted(blackToMove), before + Requests(kind, pts))
      ensures |pts| == 0 ==> gm.whiteLast == old(gm.whiteLast)
      ensures |pts| > 0 ==> gm.whiteLast == blackToMove && gm.TurnAgrees()
    {
      var i := 0;
      assert pts[..0] == [];
      assert before + Requests(kind, pts[..0]) == before;
      while i < |pts|
        invariant 0 <= i <= |pts|
        invariant gm.Valid() && gm.SettingsKept() && gm.prevMove == pm && gm.handiLeft == old(gm.handiLeft)
        invariant Session(gm.tree.nodes, gm.currMove, nodes0, c0, pm, Predicted(blackToMove), before + Requests(kind, pts[..i]))
        invariant i == 0 ==> gm.whiteLast == old(gm.whiteLast)
        invariant i > 0 ==> gm.whiteLast == blackToMove && gm.TurnAgrees()
      {
        SetupOne(kind, pts[i], blackToMove, nodes0, c0, pm, before + Requests(kind, pts[..i]));
        RequestsSnoc(before, kind, pts, i);
        i := i + 1;
      }
      assert pts[..i] == pts;
    }

    /** The three forEach loops of setUp. */
    method SetupAll(white: seq<PointOfPlay>, black: seq<PointOfPlay>, empty: seq<PointOfPlay>, blackToMove: bool)
      requires gm.Valid()
      modifies gm, gm.tree
      ensures gm.Valid() && gm.SettingsKept() && gm.prevMove == old(gm.prevMove)
      ensures Session(gm.tree.nodes, gm.currMove, old(gm.tree.nodes), old(gm.currMove), old(gm.prevMove),
                      Predicted(blackToMove), SetUpRequests(white, black, empty))
      ensures |SetUpRequests(white, black, empty)| > 0 ==> gm.whiteLast == blackToMove && gm.TurnAgrees()
      ensures gm.currMove == old(gm.currMove) <==> |SetUpRequests(white, black, empty)| == 0 || old(gm.tree.nodes[gm.currMove]).IsSetup()
      ensures gm.currMove != old(gm.currMove) ==> gm.tree.nodes[gm.currMove].IsSetup()
    {
      ghost var nodes0 := gm.tree.nodes;
      ghost var pm := gm.prevMove;
      ghost var c0 := gm.currMove;
      ghost var reqsW := Requests(MoveWhite, white);
      ghost var reqsB := Requests(MoveBlack, black);
      assert [] + reqsW == reqsW;
      SetupEach(MoveWhite, white, blackToMove, nodes0, c0, pm, []);
      SetupEach(MoveBlack, black, blackToMove, nodes0, c0, pm, reqsW);
      SetupEach(EmptyPoint, empty, blackToMove, nodes0, c0, pm, reqsW + reqsB);
      SessionKeepsNode(gm.tree.nodes, gm.currMove, nodes0, c0, pm, Predicted(blackToMove), SetUpRequests(white, black, empty));
    }

    /**
     * setUp: doSetup for every white, then black, then empty point. When the
     * current node changed, the position derived from the new setup node is
     * appended; when it did not (a setup node reused, or no point at all),
     * the current position is removed and then read back at the same index,
     * which is out of range.
     */
    method SetUp(white: seq<PointOfPlay>, black: seq<PointOfPlay>, empty: seq<PointOfPlay>, blackToMove: bool)
      returns (r: Outcome)
      requires Valid()
      modifies this, gm, gm.tree
      ensures gm == old(gm) && gm.Valid() && gm.SettingsKept() && gm.prevMove == old(gm.prevMove)
      ensures whiteHasCap == old(whiteHasCap) && blackHasCap == old(blackHasCap)
      ensures Session(gm.tree.nodes, gm.currMove, old(gm.tree.nodes), old(gm.currMove), old(gm.prevMove),
                      Predicted(blackToMove), SetUpRequests(white, black, empty))
      ensures |SetUpRequests(white, black, empty)| > 0 ==> gm.whiteLast == blackToMove && gm.TurnAgrees()
      ensures gm.currMove == old(gm.currMove) ==>
                r == Thrown(IndexOutOfBounds) && currPos == old(currPos) && positions == old(positions[..currPos])
      ensures gm.currMove != old(gm.currMove) ==>
                currPos == old(currPos) + 1
                && var d := Derive(old(positions[currPos]), gm.tree.nodes[gm.currMove]);
                   (d.Err? ==> r == Thrown(d.fault) && positions == old(positions))
                   && (d.Ok? ==> r == Done && Valid() && positions == old(positions) + [d.value])
    {
      var initial := gm.currMove;
      SetupAll(white, black, empty, blackToMove);
      if initial == gm.currMove {
        positions := positions[..currPos];
        return Thrown(IndexOutOfBounds);
      }
      var prev := positions[currPos];
      currPos := currPos + 1;
      var d := Derive(prev, gm.tree.nodes[gm.currMove]);
      if d.Err? {
        return Thrown(d.fault);
      }
      DeriveChecksPrev(prev, gm.tree.nodes[gm.currMove]);
      SetupEffect(prev, gm.tree.nodes[gm.currMove]);
      positions := positions + [d.value];
      r := Done;
    }

    /**
     * undoMove: past the first position, the game steps back and the last
     * position is dropped; the prisoner counts are not rolled back. At the
     * first position nothing happens.
     */
    method UndoMove()
      requires Valid()
      modifies this, gm, gm.tree
      ensures Valid() && gm == old(gm) && gm.SettingsKept()
      ensures whiteHasCap == old(whiteHasCap) && blackHasCap == old(blackHasCap)
      ensures old(currPos) == 0 ==> Unmoved()
      ensures old(currPos) > 0 ==>
                currPos == old(currPos) - 1 && positions == old(positions[..currPos])
                && gm.currMove == old(gm.tree.nodes[gm.currMove].parent) && gm.whiteLast == old(gm.whiteLast)
    {
      if currPos > 0 {
        gm.UndoMove();
        positions := positions[..currPos];
        currPos := currPos - 1;
      }
    }

    /** doResign: the side not to move wins by resignation and the game is over. */
    method DoResign()
      requires Valid()
      modifies gm
      ensures Valid() && gm.gameOver && gm.whiteLast == old(gm.whiteLast)
      ensures gm.gameResult == if old(gm.IsWMove()) then "B+R" else "W+R"
    {
      if gm.IsWMove() {
        gm.SetGameResult("B+R");
      } else {
        gm.SetGameResult("W+R");
      }
      gm.SetGameOver(true);
    }

    /** A move that completes, followed by undoMove, gives back the list of positions and the cursor. */
    method MoveThenUndo(x: int, y: int) returns (r: Outcome)
      requires Valid()
      modifies this, gm, gm.tree
      ensures r == Done && old(Legality(x, y)) == Ok(true) && !old(gm.gameOver) ==>
                Valid() && positions == old(positions) && currPos == old(currPos)
    {
      var before := currPos;
      r := DoMove(x, y);
      if r == Done && currPos == before + 1 {
        UndoMove();
      }
    }
  }
}
