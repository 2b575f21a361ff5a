// The rules of leelawatcher/scorer/AbstractRules.java and QuickRules.java:
// liberty counting, suicide, ko and move legality. The board is passed in
// as what the rules read from it: its current position, whether white is to
// move, and the positions of the game so far.

module Rules {
  import opened Base
  import opened Points
  import opened Positions
  import opened MoveTree
  import opened Markable

  /** isSelfCaptureAllowed: these rules forbid suicide. */
  const SelfCaptureAllowed := false

  /** isEmpty(p, board): stoneAt on the current position, negated. */
  function IsEmpty(cur: PosVal, p: PointOfPlay): (r: Result<bool>)
    requires Shaped(cur)
    ensures r.Ok? <==> CheckPasses(cur) && OnBoard(p)
    ensures r.Ok? ==> (r.value <==> !StoneAt(cur, p))
    ensures !CheckPasses(cur) ==> r == Err(InvalidPosition)
    ensures CheckPasses(cur) && !OnBoard(p) ==> r == Err(ArrayIndexOutOfBounds)
  {
    var s := StoneAtXY(cur, p.x, p.y);
    if s.Ok? then Ok(!s.value) else Err(s.fault)
  }

  /** What doCountLibs returns from p when `avoid` is already marked: the empty points its fill reaches. */
  ghost function FillLibs(v: PosVal, avoid: set<PointOfPlay>, p: PointOfPlay): nat
    requires Shaped(v)
  {
    |Empties(v, Reach(v, LibertyWalk, avoid, p))|
  }

  /**
   * On a position without doubly occupied points, a fill from a stone with
   * nothing marked counts the liberties of the stone's group, and a fill
   * from an empty point counts that point alone.
   */
  lemma FillLibsMeaning(v: PosVal, p: PointOfPlay)
    requires Shaped(v) && NoOverlap(v) && OnBoard(p)
    ensures StoneAt(v, p) ==> FillLibs(v, {}, p) == |Liberties(v, p)|
    ensures !StoneAt(v, p) ==> FillLibs(v, {}, p) == 1
  {
    if StoneAt(v, p) {
      LibertyFillCountsLiberties(v, p);
    } else {
      EmptyPointReach(v, LibertyWalk, {}, p);
    }
  }

  /** The on-board neighbours of p, one set per direction. */
  function Around(p: PointOfPlay): set<PointOfPlay> {
    (if OnBoard(North(p)) then {North(p)} else {})
    + (if OnBoard(East(p)) then {East(p)} else {})
    + (if OnBoard(South(p)) then {South(p)} else {})
    + (if OnBoard(West(p)) then {West(p)} else {})
  }

  /** A point has four neighbours, less one for each board edge it lies on. */
  lemma AroundSize(p: PointOfPlay)
    requires OnBoard(p)
    ensures |Around(p)| == 4 - (if p.x == 0 || p.x == Size - 1 then 1 else 0)
                             - (if p.y == 0 || p.y == Size - 1 then 1 else 0)
  {
    var n := if OnBoard(North(p)) then {North(p)} else {};
    var e := if OnBoard(East(p)) then {East(p)} else {};
    var s := if OnBoard(South(p)) then {South(p)} else {};
    var w := if OnBoard(West(p)) then {West(p)} else {};
    assert |n + e| == |n| + |e|;
    assert |n + e + s| == |n + e| + |s|;
    assert |n + e + s + w| == |n + e + s| + |w|;
  }

  /**
   * A stone with no stone next to it has one liberty per on-board
   * neighbour: 4 in the interior, 3 on an edge and 2 in a corner.
   */
  lemma {:induction false} LoneStoneLiberties(v: PosVal, p: PointOfPlay)
    requires Shaped(v) && NoOverlap(v) && OnBoard(p) && StoneAt(v, p)
    requires forall r | OnBoard(r) && Adjacent(p, r) :: !StoneAt(v, r)
    ensures FillLibs(v, {}, p) == |Around(p)|
    ensures FillLibs(v, {}, p) == 4 - (if p.x == 0 || p.x == Size - 1 then 1 else 0)
                                    - (if p.y == 0 || p.y == Size - 1 then 1 else 0)
  {
    LoneStone(v, p);
    FillLibsMeaning(v, p);
    LoneLiberties(v, p);
    AroundSize(p);
  }

  lemma LoneLiberties(v: PosVal, p: PointOfPlay)
    requires Shaped(v) && OnBoard(p) && GroupOf(v, p) == {p}
    requires forall r | OnBoard(r) && Adjacent(p, r) :: !StoneAt(v, r)
    ensures Liberties(v, p) == Around(p)
  {
    forall e | e in Around(p) ensures e in Liberties(v, p) {
      AllPointsOnBoard(e);
      assert p in GroupOf(v, p) && Adjacent(p, e);
    }
    forall e | e in Liberties(v, p) ensures e in Around(p) {
      var g :| g in GroupOf(v, p) && Adjacent(g, e);
      assert g == p;
    }
  }

  // ---------------------------------------------------------------------
  // doCountLibs and countLibs

  /**
   * doCountLibs(p, has, pos, board) with a non-null pos: an off-board p
   * throws; otherwise p is marked and stoneAt's validity check runs before
   * the fill. The marks stay in place.
   */
  method DoCountLibs(p: PointOfPlay, has: int, mp: MarkablePosition) returns (r: Result<int>)
    requires mp.Valid()
    modifies mp, mp.marks
    ensures mp.Valid()
    ensures !OnBoard(p) ==> r == Err(IllegalArgument) && mp.Marked == old(mp.Marked)
    ensures OnBoard(p) && !CheckPasses(mp.pos.Val()) ==> r == Err(InvalidPosition) && mp.Marked == old(mp.Marked) + {p}
    ensures OnBoard(p) && CheckPasses(mp.pos.Val()) ==>
      r == Ok(has + FillLibs(mp.pos.Val(), old(mp.Marked), p))
      && mp.Marked == old(mp.Marked) + Reach(mp.pos.Val(), LibertyWalk, old(mp.Marked), p)
  {
    if !OnBoard(p) {
      return Err(IllegalArgument);
    }
    ghost var v := mp.pos.Val();
    ghost var m0 := mp.Marked;
    var ok := mp.pos.CheckValid();
    if ok != Done {
      var _ := mp.SetMark(p);
      assert mp.pos.Val() == v;
      return Err(InvalidPosition);
    }
    var n := CountFrom(p, has, mp, v);
    r := Ok(n);
  }

  /** The count of doCountLibs once p is on the board and the position is valid. */
  method CountFrom(p: PointOfPlay, has: int, mp: MarkablePosition, ghost v: PosVal) returns (n: int)
    requires mp.Valid() && v == mp.pos.Val() && CheckPasses(v) && OnBoard(p)
    modifies mp, mp.marks
    ensures mp.Valid() && mp.pos.Val() == v
    ensures n == has + FillLibs(v, old(mp.Marked), p)
    ensures mp.Marked == old(mp.Marked) + Reach(v, LibertyWalk, old(mp.Marked), p)
  {
    ghost var m0 := mp.Marked;
    n := LibertyFill(p, has, mp, v);
    assert mp.pos.Val() == v;
    FillIsReach(v, LibertyWalk, m0, p, mp.Marked);
  }

  /** countLibs(p, has, pos, board): doCountLibs, then the marks are cleared on a normal return. */
  method CountLibs(p: PointOfPlay, has: int, mp: MarkablePosition) returns (r: Result<int>)
    requires mp.Valid()
    modifies mp, mp.marks
    ensures mp.Valid()
    ensures !OnBoard(p) ==> r == Err(IllegalArgument) && mp.Marked == old(mp.Marked)
    ensures OnBoard(p) && !CheckPasses(mp.pos.Val()) ==> r == Err(InvalidPosition) && mp.Marked == old(mp.Marked) + {p}
    ensures OnBoard(p) && CheckPasses(mp.pos.Val()) ==>
      r == Ok(has + FillLibs(mp.pos.Val(), old(mp.Marked), p)) && mp.Marked == {}
  {
    ghost var v := mp.pos.Val();
    r := DoCountLibs(p, has, mp);
    if r.Ok? {
      mp.ClearMarks();
      assert mp.pos.Val() == v;
    }
  }

  /**
   * Board.countLiberties(p), which calls countLibs with a null pos: the
   * count runs on a fresh markable copy of the current position.
   */
  method CountLiberties(p: PointOfPlay, cur: Position) returns (r: Result<int>)
    requires cur.Valid()
    ensures !OnBoard(p) ==> r == Err(IllegalArgument)
    ensures OnBoard(p) && !CheckPasses(cur.Val()) ==> r == Err(InvalidPosition)
    ensures OnBoard(p) && CheckPasses(cur.Val()) ==> r == Ok(FillLibs(cur.Val(), {}, p))
  {
    ghost var v := cur.Val();
    var mp := new MarkablePosition(cur);
    assert mp.marks != cur.posBlack && mp.marks != cur.posWhite;
    r := CountUnmarked(p, mp, v);
    assert cur.Val() == v;
  }

  /** doCountLibs from zero on a markable position with nothing marked yet. */
  method CountUnmarked(p: PointOfPlay, mp: MarkablePosition, ghost v: PosVal) returns (r: Result<int>)
    requires mp.Valid() && mp.Marked == {} && mp.pos.Val() == v
    modifies mp, mp.marks
    ensures !OnBoard(p) ==> r == Err(IllegalArgument)
    ensures OnBoard(p) && !CheckPasses(v) ==> r == Err(InvalidPosition)
    ensures OnBoard(p) && CheckPasses(v) ==> r == Ok(FillLibs(v, {}, p))
  {
    r := DoCountLibs(p, 0, mp);
    assert mp.pos.Val() == v;
  }

  /** The recursive body of doCountLibs once p is known to be on the board. */
  method LibertyFill(p: PointOfPlay, has: int, mp: MarkablePosition, ghost v: PosVal) returns (r: int)
    requires mp.Valid() && v == mp.pos.Val() && CheckPasses(v) && OnBoard(p)
    modifies mp, mp.marks
    ensures mp.Valid() && old(mp.Marked) + {p} <= mp.Marked
    ensures Sound(v, LibertyWalk, old(mp.Marked), p, mp.Marked)
    ensures ClosedOn(v, LibertyWalk, (mp.Marked - old(mp.Marked)) + {p}, mp.Marked)
    ensures r == has + |Empties(v, (mp.Marked - old(mp.Marked)) + {p})|
    decreases AllPoints() - mp.Marked, if p in mp.Marked then 1 else 0, 0
  {
    ghost var m0 := mp.Marked;
    AllPointsOnBoard(p);
    var _ := mp.SetMark(p);
    FillStart(v, LibertyWalk, m0, p);
    // stoneAt's validity check is discharged by CheckPasses(v)
    if StoneAt(mp.pos.Val(), p) {
      assert Empties(v, (mp.Marked - m0) + {p}) == {};
      r := LibertyNeighbours(p, has, mp, has, m0, v);
    } else {
      assert Empties(v, (mp.Marked - m0) + {p}) == {p};
      assert ClosedOn(v, LibertyWalk, (mp.Marked - m0) + {p}, mp.Marked);
      r := has + 1;
    }
  }

  /** The four neighbour tests of doCountLibs, north, east, south and west. */
  method LibertyNeighbours(p: PointOfPlay, acc: int, mp: MarkablePosition,
                           ghost has: int, ghost m0: set<PointOfPlay>, ghost v: PosVal)
    returns (r: int)
    requires mp.Valid() && v == mp.pos.Val() && CheckPasses(v) && OnBoard(p) && StoneAt(v, p)
    requires mp.Marked == m0 + {p} && Sound(v, LibertyWalk, m0, p, mp.Marked)
    requires acc == has + |Empties(v, (mp.Marked - m0) + {p})|
    modifies mp, mp.marks
    ensures mp.Valid() && m0 + {p} <= mp.Marked
    ensures Sound(v, LibertyWalk, m0, p, mp.Marked)
    ensures ClosedOn(v, LibertyWalk, (mp.Marked - m0) + {p}, mp.Marked)
    ensures r == has + |Empties(v, (mp.Marked - m0) + {p})|
    decreases AllPoints() - mp.Marked, 0, 2
  {
    assert mp.Marked - m0 - {p} == {};
    r := LibertyVisit(p, North(p), acc, mp, has, m0, v);
    r := LibertyVisit(p, East(p), r, mp, has, m0, v);
    r := LibertyVisit(p, South(p), r, mp, has, m0, v);
    r := LibertyVisit(p, West(p), r, mp, has, m0, v);
    ClosedAtStart(v, LibertyWalk, mp.Marked, mp.Marked - m0, p);
  }

  /** One neighbour test of doCountLibs: on the board, unmarked, and not of the opposite colour. */
  method LibertyVisit(p: PointOfPlay, d: PointOfPlay, acc: int, mp: MarkablePosition,
                      ghost has: int, ghost m0: set<PointOfPlay>, ghost v: PosVal)
    returns (r: int)
    requires mp.Valid() && v == mp.pos.Val() && CheckPasses(v) && OnBoard(p) && StoneAt(v, p) && Adjacent(p, d)
    requires m0 + {p} <= mp.Marked && Sound(v, LibertyWalk, m0, p, mp.Marked)
    requires ClosedOn(v, LibertyWalk, mp.Marked - m0 - {p}, mp.Marked)
    requires acc == has + |Empties(v, (mp.Marked - m0) + {p})|
    modifies mp, mp.marks
    ensures mp.Valid() && old(mp.Marked) <= mp.Marked && m0 + {p} <= mp.Marked
    ensures Sound(v, LibertyWalk, m0, p, mp.Marked)
    ensures ClosedOn(v, LibertyWalk, mp.Marked - m0 - {p}, mp.Marked)
    ensures r == has + |Empties(v, (mp.Marked - m0) + {p})|
    ensures Step(v, LibertyWalk, p, d) ==> d in mp.Marked
    decreases AllPoints() - mp.Marked, 0, 1
  {
    r := acc;
    if OnBoard(d) && !mp.IsMarked(d).value && !Opposite(mp.pos.Val(), p, d) {
      ghost var m1 := mp.Marked;
      r := LibertyFill(d, acc, mp, v);
      VisitDone(v, LibertyWalk, m0, m1, mp.Marked, p, d);
      EmptiesUnion(v, (m1 - m0) + {p}, (mp.Marked - m1) + {d});
    }
  }

  // ---------------------------------------------------------------------
  // isSelfCapture

  /** The colour of the side to move: 'W' when white is to move, else 'B'. */
  function MoverColour(whiteMove: bool): char {
    if whiteMove then MoveWhite else MoveBlack
  }

  /** `new Move(p.x, p.y, colour, new Move())`: a play of the mover's colour below a fresh root. */
  function TestMove(p: PointOfPlay, whiteMove: bool): (m: Node)
    ensures m.IsMove() && m.x == p.x && m.y == p.y && m.color == MoverColour(whiteMove)
  {
    PlayAfterNonPlay(p.x, p.y, MoverColour(whiteMove), 0, RootNode(0));
    PlayNode(p.x, p.y, MoverColour(whiteMove), 0, RootNode(0)).value
  }

  /**
   * One term of isSelfCapture's disjunction on the test position t: n is on
   * the board, countLibs from n finds nothing and the colours of p and n
   * differ. The count throws on a malformed position, colorAt(p) on an
   * off-board p.
   */
  ghost function NeighbourTest(t: PosVal, p: PointOfPlay, n: PointOfPlay): Result<bool>
    requires Shaped(t)
  {
    if !OnBoard(n) then Ok(false)
    else if !CheckPasses(t) then Err(InvalidPosition)
    else if FillLibs(t, {}, n) != 0 then Ok(false)
    else if !OnBoard(p) then Err(ArrayIndexOutOfBounds)
    else Ok(ColorAt(t, p.x, p.y).value != ColorAt(t, n.x, n.y).value)
  }

  /** `acc || term`, evaluated left to right; an exception so far stops everything. */
  ghost function OrNeighbour(t: PosVal, p: PointOfPlay, n: PointOfPlay, acc: Result<bool>): Result<bool>
    requires Shaped(t)
  {
    if acc.Err? || acc.value then acc else NeighbourTest(t, p, n)
  }

  /** Whether the play at p captures something, tested north, east, south and west. */
  ghost function CaptureTest(t: PosVal, p: PointOfPlay): Result<bool>
    requires Shaped(t)
  {
    OrNeighbour(t, p, West(p), OrNeighbour(t, p, South(p), OrNeighbour(t, p, East(p), NeighbourTest(t, p, North(p)))))
  }

  /** isSelfCapture once the test position t is built: p's count is zero and nothing is captured. */
  ghost function SelfCaptureOn(t: PosVal, p: PointOfPlay): Result<bool>
    requires Shaped(t)
  {
    var c := CaptureTest(t, p);
    if c.Err? then c
    else if !OnBoard(p) then Err(IllegalArgument)
    else if !CheckPasses(t) then Err(InvalidPosition)
    else Ok(FillLibs(t, {}, p) == 0 && !c.value)
  }

  /** isSelfCapture(p, board): the test position is the current one with the mover's stone added at p. */
  ghost function SelfCaptureTest(cur: PosVal, p: PointOfPlay, whiteMove: bool): Result<bool>
    requires Shaped(cur)
  {
    var d := Derive(cur, TestMove(p, whiteMove));
    if d.Err? then Err(d.fault) else SelfCaptureOn(d.value, p)
  }

  /** The neighbour n holds a stone of the other colour than p's, and n's group has no liberty. */
  ghost predicate Captures(t: PosVal, p: PointOfPlay, n: PointOfPlay)
    requires Shaped(t)
  {
    OnBoard(p) && OnBoard(n) && StoneAt(t, n) && Opposite(t, p, n) && Liberties(t, n) == {}
  }

  /** With the stone at p placed, p's group has no liberty and no neighbouring group of the other colour is taken. */
  ghost predicate SelfCaptured(t: PosVal, p: PointOfPlay)
    requires Shaped(t)
  {
    Liberties(t, p) == {}
    && !(Captures(t, p, North(p)) || Captures(t, p, East(p)) || Captures(t, p, South(p)) || Captures(t, p, West(p)))
  }

  /**
   * The test position of a play on an empty point of a well-formed position:
   * it exists, is well formed, holds the mover's stone at p, and agrees with
   * the current position everywhere else; the other side is to move.
   */
  lemma TestPosition(cur: PosVal, p: PointOfPlay, whiteMove: bool)
    requires Tidy(cur) && NoOverlap(cur) && OnBoard(p) && !StoneAt(cur, p)
    ensures Derive(cur, TestMove(p, whiteMove)).Ok?
    ensures var t := Derive(cur, TestMove(p, whiteMove)).value;
      Tidy(t) && NoOverlap(t) && CheckPasses(t) && t.blackToMove == whiteMove
      && (BlackAt(t, p) <==> !whiteMove) && (WhiteAt(t, p) <==> whiteMove)
      && forall q | OnBoard(q) && q != p :: BlackAt(t, q) == BlackAt(cur, q) && WhiteAt(t, q) == WhiteAt(cur, q)
  {
    CheckValidIff(cur);
    var m := TestMove(p, whiteMove);
    PlayEffect(cur, m);
    var t := Derive(cur, m).value;
    assert NoOverlap(t) by {
      forall q | OnBoard(q) ensures !(BlackAt(t, q) && WhiteAt(t, q)) {
        if q == p {
          assert !BlackAt(cur, p) && !WhiteAt(cur, p);
        }
      }
    }
    CheckValidIff(t);
  }

  /** On a well-formed test position with a stone at p, a term is true iff the neighbour's group is captured. */
  lemma NeighbourTestMeaning(t: PosVal, p: PointOfPlay, n: PointOfPlay)
    requires Tidy(t) && NoOverlap(t) && OnBoard(p) && StoneAt(t, p)
    ensures NeighbourTest(t, p, n) == Ok(Captures(t, p, n))
  {
    if OnBoard(n) {
      CheckValidIff(t);
      FillLibsMeaning(t, n);
      if !StoneAt(t, n) {
        assert FillLibs(t, {}, n) != 0;
      }
    }
  }

  /**
   * On a well-formed test position with a stone at p, isSelfCapture is true
   * iff p's group has no liberty and no neighbour's group of the other colour
   * is left without one.
   */
  lemma SelfCaptureOnMeaning(t: PosVal, p: PointOfPlay)
    requires Tidy(t) && NoOverlap(t) && OnBoard(p) && StoneAt(t, p)
    ensures SelfCaptureOn(t, p) == Ok(SelfCaptured(t, p))
  {
    NeighbourTestMeaning(t, p, North(p));
    NeighbourTestMeaning(t, p, East(p));
    NeighbourTestMeaning(t, p, South(p));
    NeighbourTestMeaning(t, p, West(p));
    CheckValidIff(t);
    FillLibsMeaning(t, p);
  }

  /**
   * A play on an empty point of a well-formed position is self-capture iff,
   * with the stone placed, its group has no liberty and it captures nothing.
   */
  lemma SelfCaptureMeaning(cur: PosVal, p: PointOfPlay, whiteMove: bool)
    requires Tidy(cur) && NoOverlap(cur) && OnBoard(p) && !StoneAt(cur, p)
    ensures Derive(cur, TestMove(p, whiteMove)).Ok?
    ensures var t := Derive(cur, TestMove(p, whiteMove)).value;
      SelfCaptureTest(cur, p, whiteMove) == Ok(SelfCaptured(t, p))
  {
    TestPosition(cur, p, whiteMove);
    SelfCaptureOnMeaning(Derive(cur, TestMove(p, whiteMove)).value, p);
  }

  /** One term of isSelfCapture's disjunction. */
  method NeighbourCaptured(p: PointOfPlay, n: PointOfPlay, mp: MarkablePosition, ghost t: PosVal)
    returns (r: Result<bool>)
    requires mp.Valid() && mp.pos.Val() == t && mp.Marked == {}
    modifies mp, mp.marks
    ensures mp.Valid() && mp.pos.Val() == t
    ensures r == NeighbourTest(t, p, n)
  {
    if !OnBoard(n) {
      return Ok(false);
    }
    var c := CountLibs(n, 0, mp);
    assert mp.pos.Val() == t;
    if c.Err? {
      return Err(c.fault);
    }
    if c.value != 0 {
      return Ok(false);
    }
    var cp := ColorAt(mp.pos.Val(), p.x, p.y);
    if cp.Err? {
      return Err(cp.fault);
    }
    var cn := ColorAt(mp.pos.Val(), n.x, n.y);
    r := Ok(cp.value != cn.value);
  }

  /** `captureOpponent = captureOpponent || term`. */
  method OrCaptured(acc: Result<bool>, p: PointOfPlay, n: PointOfPlay, mp: MarkablePosition, ghost t: PosVal)
    returns (r: Result<bool>)
    requires mp.Valid() && mp.pos.Val() == t && mp.Marked == {}
    modifies mp, mp.marks
    ensures mp.Valid() && mp.pos.Val() == t
    ensures r == OrNeighbour(t, p, n, acc)
  {
    if acc.Err? || acc.value {
      return acc;
    }
    r := NeighbourCaptured(p, n, mp, t);
  }

  /** isSelfCapture(p, board) on the board's current position and side to move. */
  method IsSelfCapture(p: PointOfPlay, cur: Position, whiteMove: bool) returns (r: Result<bool>)
    requires cur.Valid()
    ensures r == SelfCaptureTest(cur.Val(), p, whiteMove)
  {
    var tp := NewFromMove(cur, TestMove(p, whiteMove));
    if tp.Err? {
      return Err(tp.fault);
    }
    var mp := new MarkablePosition(tp.value);
    ghost var t := mp.pos.Val();
    var c := NeighbourCaptured(p, North(p), mp, t);
    mp.ClearMarks();
    c := OrCaptured(c, p, East(p), mp, t);
    mp.ClearMarks();
    c := OrCaptured(c, p, South(p), mp, t);
    mp.ClearMarks();
    c := OrCaptured(c, p, West(p), mp, t);
    mp.ClearMarks();
    assert mp.pos.Val() == t;
    if c.Err? {
      return c;
    }
    var n := CountLibs(p, 0, mp);
    if n.Err? {
      return Err(n.fault);
    }
    r := Ok(n.value == 0 && !c.value);
  }

  // ---------------------------------------------------------------------
  // isKo

  /** What isKo carries from one neighbour to the next: the test position, its marks and stonesRemoved. */
  datatype KoState = KoState(t: PosVal, marks: set<PointOfPlay>, removed: int)

  /**
   * One neighbour of isKo: on the board, countLibs from n (which runs over
   * the marks getGroupSet left behind, and clears them when it returns) finds
   * nothing, and getGroupSet from n (which clears the marks, then leaves its
   * own) has one member: then stonesRemoved grows and the stone is removed.
   */
  ghost function KoStep(s: KoState, n: PointOfPlay): (r: Result<KoState>)
    requires Shaped(s.t)
    ensures r.Ok? ==> Shaped(r.value.t)
  {
    if !OnBoard(n) then Ok(s)
    else if !CheckPasses(s.t) then Err(InvalidPosition)
    else if FillLibs(s.t, s.marks, n) != 0 then Ok(s.(marks := {}))
    else if |GroupOf(s.t, n)| == 1 then Ok(KoState(RemoveVal(s.t, n), Reach(s.t, GroupWalk, {}, n), s.removed + 1))
    else Ok(s.(marks := Reach(s.t, GroupWalk, {}, n)))
  }

  ghost function KoThen(s: Result<KoState>, n: PointOfPlay): (r: Result<KoState>)
    requires s.Ok? ==> Shaped(s.value.t)
    ensures r.Ok? ==> Shaped(r.value.t)
  {
    if s.Err? then s else KoStep(s.value, n)
  }

  /** The four neighbour steps of isKo on the test position t, north, east, south and west. */
  ghost function KoSteps(t: PosVal, p: PointOfPlay): (r: Result<KoState>)
    requires Shaped(t)
    ensures r.Ok? ==> Shaped(r.value.t)
  {
    KoThen(KoThen(KoThen(KoStep(KoState(t, {}, 0), North(p)), East(p)), South(p)), West(p))
  }

  predicate AllShaped(h: seq<PosVal>) {
    forall i | 0 <= i < |h| :: Shaped(h[i])
  }

  /** Some position of the game equals t, as Position.equals decides. */
  predicate Occurs(h: seq<PosVal>, t: PosVal)
    requires AllShaped(h) && Shaped(t)
  {
    exists i | 0 <= i < |h| :: Positions.Equals(h[i], t)
  }

  /**
   * isKo(p, board): build the test position, run the four neighbour steps,
   * and when exactly one stone was removed look for the result among the
   * positions of the game.
   */
  ghost function KoTest(cur: PosVal, p: PointOfPlay, whiteMove: bool, h: seq<PosVal>): Result<bool>
    requires Shaped(cur) && AllShaped(h)
  {
    var d := Derive(cur, TestMove(p, whiteMove));
    if d.Err? then Err(d.fault)
    else
      var s := KoSteps(d.value, p);
      if s.Err? then Err(s.fault)
      else Ok(s.value.removed == 1 && Occurs(h, s.value.t))
  }

  /** n is a stone whose every neighbour on the board holds the other colour: a lone stone without liberty. */
  ghost predicate Surrounded(t: PosVal, n: PointOfPlay)
    requires Shaped(t)
  {
    OnBoard(n) && StoneAt(t, n) && forall r | OnBoard(r) && Adjacent(n, r) :: Opposite(t, n, r)
  }

  /** The position after n's turn in the intended reading of isKo: n is taken off when it is surrounded. */
  ghost function Cleared(t: PosVal, n: PointOfPlay): (r: PosVal)
    requires Shaped(t)
    ensures Shaped(r)
  {
    if Surrounded(t, n) then RemoveVal(t, n) else t
  }

  function Count(b: bool): nat { if b then 1 else 0 }

  /** The test position after the four neighbours' turns, and how many stones were taken. */
  ghost function ClearedAround(t: PosVal, p: PointOfPlay): (PosVal, int)
    requires Shaped(t)
  {
    var t1 := Cleared(t, North(p));
    var t2 := Cleared(t1, East(p));
    var t3 := Cleared(t2, South(p));
    (Cleared(t3, West(p)),
     Count(Surrounded(t, North(p))) + Count(Surrounded(t1, East(p)))
     + Count(Surrounded(t2, South(p))) + Count(Surrounded(t3, West(p))))
  }

  /** Whatever a fill from p reaches besides p lies beyond a first step out of p. */
  lemma ReachedThroughStep(v: PosVal, w: Walk, avoid: set<PointOfPlay>, p: PointOfPlay, q: PointOfPlay)
    requires Shaped(v) && OnBoard(p) && q in Reach(v, w, avoid, p)
    ensures q == p || exists d :: Step(v, w, p, d)
  {
    InReach(v, w, avoid, p, q);
    var path :| Chain(v, w, avoid, path) && path[0] == p && path[|path| - 1] == q;
    if |path| > 1 {
      assert Step(v, w, path[0], path[1]);
    }
  }

  /** Exactly one lone stone is taken, and the board left, with its side to move, occurred in h. */
  ghost predicate RetakesKo(t: PosVal, p: PointOfPlay, h: seq<PosVal>)
    requires Shaped(t)
  {
    var c := ClearedAround(t, p);
    c.1 == 1 && exists i | 0 <= i < |h| :: SameBoard(h[i], c.0)
  }

  /** With no step possible out of p, a fill from p reaches p alone. */
  lemma NoStepReach(v: PosVal, w: Walk, avoid: set<PointOfPlay>, p: PointOfPlay)
    requires Shaped(v) && OnBoard(p)
    requires forall d :: !Step(v, w, p, d)
    ensures Reach(v, w, avoid, p) == {p}
  {
    ReachesSelf(v, w, avoid, p);
    InReach(v, w, avoid, p, p);
    forall q | q in Reach(v, w, avoid, p)
      ensures q == p
    {
      ReachedThroughStep(v, w, avoid, p, q);
    }
  }

  /** A step into an unavoided point stays within the fill. */
  lemma StepInReach(v: PosVal, w: Walk, avoid: set<PointOfPlay>, p: PointOfPlay, d: PointOfPlay)
    requires Shaped(v) && Step(v, w, p, d) && d !in avoid
    ensures d in Reach(v, w, avoid, p)
  {
    assert Chain(v, w, avoid, [p, d]);
    InReach(v, w, avoid, p, d);
  }

  /** An unmarked empty neighbour of a stone counts towards the stone's count. */
  lemma LibertyCounted(t: PosVal, marks: set<PointOfPlay>, n: PointOfPlay, r: PointOfPlay)
    requires Shaped(t) && OnBoard(n) && StoneAt(t, n) && OnBoard(r) && Adjacent(n, r)
    requires !StoneAt(t, r) && r !in marks
    ensures FillLibs(t, marks, n) > 0
  {
    StepInReach(t, LibertyWalk, marks, n, r);
    assert r in Empties(t, Reach(t, LibertyWalk, marks, n));
  }

  /** A group fill from a stone reaches only stones. */
  lemma GroupReachStones(v: PosVal, n: PointOfPlay)
    requires Shaped(v) && OnBoard(n) && StoneAt(v, n)
    ensures Reach(v, GroupWalk, {}, n) == GroupOf(v, n)
  {
    forall q | q in Reach(v, GroupWalk, {}, n)
      ensures OnBoard(q) && StoneAt(v, q)
    {
      InReach(v, GroupWalk, {}, n, q);
      ReachesOnBoard(v, GroupWalk, {}, n, q);
      var path :| Chain(v, GroupWalk, {}, path) && path[0] == n && path[|path| - 1] == q;
      assert |path| > 1 ==> Step(v, GroupWalk, path[|path| - 2], path[|path| - 1]);
    }
  }

  /** A one-member set is the singleton of any of its members. */
  lemma SingletonOf(s: set<PointOfPlay>, n: PointOfPlay)
    requires n in s && |s| == 1
    ensures s == {n}
  {
    assert |s - {n}| == 0;
  }

  /**
   * A zero count from n over marks that hold only stones and points not next
   * to n, with a one-member group, means n is surrounded; and conversely.
   */
  lemma SurroundedIff(t: PosVal, marks: set<PointOfPlay>, n: PointOfPlay)
    requires Shaped(t) && NoOverlap(t) && OnBoard(n)
    requires forall m | m in marks :: (OnBoard(m) && StoneAt(t, m)) || !Adjacent(n, m)
    ensures (FillLibs(t, marks, n) == 0 && |GroupOf(t, n)| == 1) <==> Surrounded(t, n)
    ensures Surrounded(t, n) ==> Reach(t, GroupWalk, {}, n) == {n}
    ensures FillLibs(t, marks, n) == 0 ==> StoneAt(t, n)
  {
    if !StoneAt(t, n) {
      EmptyPointReach(t, LibertyWalk, marks, n);
    } else if Surrounded(t, n) {
      NoStepReach(t, LibertyWalk, marks, n);
      LoneStone(t, n);
      GroupReachStones(t, n);
    } else if FillLibs(t, marks, n) == 0 && |GroupOf(t, n)| == 1 {
      GroupHasStart(t, n);
      SingletonOf(GroupOf(t, n), n);
      forall r | OnBoard(r) && Adjacent(n, r)
        ensures Opposite(t, n, r)
      {
        if !StoneAt(t, r) {
          LibertyCounted(t, marks, n, r);
        } else if SameColour(t, n, r) {
          GroupClosed(t, n, n, r);
        }
      }
    }
  }

  /**
   * One step of isKo on a well-formed position whose marks hold only stones
   * and neighbours of p already handled: it does what Cleared does, counts
   * the removal, and keeps the same shape of marks.
   */
  lemma KoStepMeaning(s: KoState, p: PointOfPlay, n: PointOfPlay, done: set<PointOfPlay>)
    requires Tidy(s.t) && NoOverlap(s.t)
    requires Adjacent(p, n) && n !in done && forall d | d in done :: Adjacent(p, d)
    requires forall m | m in s.marks :: (OnBoard(m) && StoneAt(s.t, m)) || m in done
    ensures KoStep(s, n).Ok?
    ensures var s' := KoStep(s, n).value;
      s'.t == Cleared(s.t, n) && s'.removed == s.removed + Count(Surrounded(s.t, n))
      && Tidy(s'.t) && NoOverlap(s'.t)
      && forall m | m in s'.marks :: (OnBoard(m) && StoneAt(s'.t, m)) || m in done + {n}
  {
    if OnBoard(n) {
      CheckValidIff(s.t);
      KoStepOnBoard(s, p, n, done);
    }
  }

  /** KoStepMeaning for a neighbour on the board. */
  lemma KoStepOnBoard(s: KoState, p: PointOfPlay, n: PointOfPlay, done: set<PointOfPlay>)
    requires Tidy(s.t) && NoOverlap(s.t) && CheckPasses(s.t) && OnBoard(n)
    requires Adjacent(p, n) && n !in done && forall d | d in done :: Adjacent(p, d)
    requires forall m | m in s.marks :: (OnBoard(m) && StoneAt(s.t, m)) || m in done
    ensures KoStep(s, n).Ok?
    ensures var s' := KoStep(s, n).value;
      s'.t == Cleared(s.t, n) && s'.removed == s.removed + Count(Surrounded(s.t, n))
      && Tidy(s'.t) && NoOverlap(s'.t)
      && forall m | m in s'.marks :: (OnBoard(m) && StoneAt(s'.t, m)) || m in done + {n}
  {
    SurroundedIff(s.t, s.marks, n);
    if FillLibs(s.t, s.marks, n) == 0 {
      GroupReachStones(s.t, n);
      if Surrounded(s.t, n) {
        RemoveEffect(s.t, n);
      }
    }
  }

  /**
   * On a well-formed test position isKo's four steps take off, in turn, each
   * neighbour that is a surrounded lone stone at its turn, and nothing else:
   * the marks getGroupSet leaves behind never change a count that matters.
   */
  lemma KoStepsMeaning(t: PosVal, p: PointOfPlay)
    requires Tidy(t) && NoOverlap(t)
    ensures KoSteps(t, p).Ok?
    ensures KoSteps(t, p).value.t == ClearedAround(t, p).0
    ensures KoSteps(t, p).value.removed == ClearedAround(t, p).1
    ensures Tidy(KoSteps(t, p).value.t)
  {
    var s0 := KoState(t, {}, 0);
    KoStepMeaning(s0, p, North(p), {});
    var s1 := KoStep(s0, North(p)).value;
    KoStepMeaning(s1, p, East(p), {North(p)});
    var s2 := KoStep(s1, East(p)).value;
    KoStepMeaning(s2, p, South(p), {North(p), East(p)});
    var s3 := KoStep(s2, South(p)).value;
    KoStepMeaning(s3, p, West(p), {North(p), East(p), South(p)});
  }

  /**
   * A play on an empty point of a well-formed position is ko iff exactly
   * one neighbouring lone stone is captured and the resulting board, with
   * the other side to move, already occurred in the game.
   */
  lemma KoMeaning(cur: PosVal, p: PointOfPlay, whiteMove: bool, h: seq<PosVal>)
    requires Tidy(cur) && NoOverlap(cur) && OnBoard(p) && !StoneAt(cur, p)
    requires AllShaped(h) && forall i | 0 <= i < |h| :: Tidy(h[i])
    ensures Derive(cur, TestMove(p, whiteMove)).Ok?
    ensures KoTest(cur, p, whiteMove, h) == Ok(RetakesKo(Derive(cur, TestMove(p, whiteMove)).value, p, h))
  {
    TestPosition(cur, p, whiteMove);
    var t := Derive(cur, TestMove(p, whiteMove)).value;
    KoStepsMeaning(t, p);
    var f := KoSteps(t, p).value.t;
    forall i | 0 <= i < |h|
      ensures Positions.Equals(h[i], f) <==> SameBoard(h[i], f)
    {
      EqualsIff(h[i], f);
    }
  }

  /** One neighbour of isKo on the markable test position. */
  method KoNeighbour(n: PointOfPlay, removed: int, mp: MarkablePosition) returns (r: Result<int>)
    requires mp.Valid()
    modifies mp, mp.marks, mp.pos.posBlack, mp.pos.posWhite
    ensures mp.Valid()
    ensures var e := KoStep(KoState(old(mp.pos.Val()), old(mp.Marked), removed), n);
      (r.Ok? <==> e.Ok?) && (e.Err? ==> r == Err(e.fault))
      && (r.Ok? ==> r.value == e.value.removed && mp.pos.Val() == e.value.t && mp.Marked == e.value.marks)
  {
    if !OnBoard(n) {
      return Ok(removed);
    }
    ghost var v := mp.pos.Val();
    var c := CountLibs(n, 0, mp);
    assert mp.pos.Val() == v;
    if c.Err? {
      return Err(c.fault);
    }
    if c.value != 0 {
      return Ok(removed);
    }
    var g := mp.GetGroupSet(n);
    assert mp.pos.Val() == v;
    if |g.value| == 1 {
      var _ := mp.pos.RemoveStoneAt(n.x, n.y);
      r := Ok(removed + 1);
    } else {
      r := Ok(removed);
    }
  }

  /** The loop over getPosIter: whether some position of the game equals t. */
  method OccursIn(h: seq<PosVal>, t: PosVal) returns (found: bool)
    requires AllShaped(h) && Shaped(t)
    ensures found <==> Occurs(h, t)
  {
    var i := 0;
    while i < |h|
      invariant 0 <= i <= |h|
      invariant forall j | 0 <= j < i :: !Positions.Equals(h[j], t)
    {
      if Positions.Equals(h[i], t) {
        return true;
      }
      i := i + 1;
    }
    return false;
  }

  /** isKo(p, board) on the board's current position, side to move and positions so far. */
  method IsKo(p: PointOfPlay, cur: Position, whiteMove: bool, h: seq<PosVal>) returns (r: Result<bool>)
    requires cur.Valid() && AllShaped(h)
    ensures r == KoTest(cur.Val(), p, whiteMove, h)
  {
    var tp := NewFromMove(cur, TestMove(p, whiteMove));
    if tp.Err? {
      return Err(tp.fault);
    }
    var mp := new MarkablePosition(tp.value);
    ghost var s := Ok(KoState(mp.pos.Val(), {}, 0));
    var removed := 0;
    var k := KoNeighbour(North(p), removed, mp);
    s := KoThen(s, North(p));
    if k.Err? {
      return Err(k.fault);
    }
    removed := k.value;
    k := KoNeighbour(East(p), removed, mp);
    s := KoThen(s, East(p));
    if k.Err? {
      return Err(k.fault);
    }
    removed := k.value;
    k := KoNeighbour(South(p), removed, mp);
    s := KoThen(s, South(p));
    if k.Err? {
      return Err(k.fault);
    }
    removed := k.value;
    k := KoNeighbour(West(p), removed, mp);
    s := KoThen(s, West(p));
    if k.Err? {
      return Err(k.fault);
    }
    removed := k.value;
    if removed == 1 {
      var found := OccursIn(h, mp.pos.Val());
      return Ok(found);
    }
    r := Ok(false);
  }

  // ---------------------------------------------------------------------
  // isLegalMove

  /**
   * isLegalMove(p, board): a pass (only x is compared with PASS) is always
   * legal; otherwise the point must be empty, the play not self-capture and
   * not ko, each test run only when the ones before it passed.
   */
  ghost function LegalTest(cur: PosVal, p: PointOfPlay, whiteMove: bool, h: seq<PosVal>): Result<bool>
    requires Shaped(cur) && AllShaped(h)
  {
    if p.x == Pass then Ok(true)
    else
      var e := IsEmpty(cur, p);
      if e.Err? then Err(e.fault)
      else if !e.value then Ok(false)
      else
        var sc := SelfCaptureTest(cur, p, whiteMove);
        if sc.Err? then Err(sc.fault)
        else if sc.value then Ok(false)
        else
          var k := KoTest(cur, p, whiteMove, h);
          if k.Err? then Err(k.fault) else Ok(!k.value)
  }

  /**
   * On a well-formed position a pass is legal, a play on a stone is not,
   * and a play on an empty point is legal iff it is neither self-capture nor
   * a retaking of ko.
   */
  lemma LegalMoveMeaning(cur: PosVal, p: PointOfPlay, whiteMove: bool, h: seq<PosVal>)
    requires Tidy(cur) && NoOverlap(cur)
    requires AllShaped(h) && forall i | 0 <= i < |h| :: Tidy(h[i])
    ensures p.x == Pass ==> LegalTest(cur, p, whiteMove, h) == Ok(true)
    ensures OnBoard(p) && StoneAt(cur, p) ==> LegalTest(cur, p, whiteMove, h) == Ok(false)
    ensures OnBoard(p) && !StoneAt(cur, p) ==>
      Derive(cur, TestMove(p, whiteMove)).Ok?
      && var t := Derive(cur, TestMove(p, whiteMove)).value;
         LegalTest(cur, p, whiteMove, h) == Ok(!SelfCaptured(t, p) && !RetakesKo(t, p, h))
  {
    CheckValidIff(cur);
    if OnBoard(p) && !StoneAt(cur, p) {
      SelfCaptureMeaning(cur, p, whiteMove);
      KoMeaning(cur, p, whiteMove, h);
    }
  }

  /** isLegalMove(p, board) on the board's current position, side to move and positions so far. */
  method IsLegalMove(p: PointOfPlay, cur: Position, whiteMove: bool, h: seq<PosVal>) returns (r: Result<bool>)
    requires cur.Valid() && AllShaped(h)
    ensures r == LegalTest(cur.Val(), p, whiteMove, h)
  {
    if p.x == Pass {
      return Ok(true);
    }
    var e := IsEmpty(cur.Val(), p);
    if e.Err? {
      return Err(e.fault);
    }
    if !e.value {
      return Ok(false);
    }
    var sc := IsSelfCapture(p, cur, whiteMove);
    if sc.Err? {
      return Err(sc.fault);
    }
    if sc.value {
      return Ok(false);
    }
    var k := IsKo(p, cur, whiteMove, h);
    if k.Err? {
      return Err(k.fault);
    }
    r := Ok(!k.value);
  }
}
