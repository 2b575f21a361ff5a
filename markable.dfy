// The markable position of leelawatcher/goboard/MarkablePosition.java: a
// position plus a 19-row mark array, and the group flood fill that uses it.
// The fills are specified by reachability: a walk says which neighbour a fill
// may step to, and a fill from p marks exactly the points reachable from p by
// steps that avoid the points marked before it began.

module Markable {
  import opened Base
  import opened Points
  import opened Rows
  import opened Positions
  import opened MoveTree

  /** Every point of the 19x19 board. */
  function AllPoints(): set<PointOfPlay> {
    set x, y | 0 <= x < Size && 0 <= y < Size :: PointOfPlay(x, y)
  }

  lemma AllPointsOnBoard(q: PointOfPlay)
    ensures q in AllPoints() <==> OnBoard(q)
  {
    if OnBoard(q) {
      assert q == PointOfPlay(q.x, q.y);
    }
  }

  /** The neighbours in the order the fills visit them: +y, +x, -y, -x. */
  function North(p: PointOfPlay): PointOfPlay { PointOfPlay(p.x, p.y + 1) }
  function East(p: PointOfPlay): PointOfPlay { PointOfPlay(p.x + 1, p.y) }
  function South(p: PointOfPlay): PointOfPlay { PointOfPlay(p.x, p.y - 1) }
  function West(p: PointOfPlay): PointOfPlay { PointOfPlay(p.x - 1, p.y) }

  predicate Adjacent(a: PointOfPlay, b: PointOfPlay) {
    b == North(a) || b == East(a) || b == South(a) || b == West(a)
  }

  lemma AdjacentSymmetric(a: PointOfPlay, b: PointOfPlay)
    ensures Adjacent(a, b) <==> Adjacent(b, a)
  {}

  /** Both points hold a stone of the same colour. */
  predicate SameColour(v: PosVal, a: PointOfPlay, b: PointOfPlay)
    requires Shaped(v) && OnBoard(a) && OnBoard(b)
  {
    (BlackAt(v, a) && BlackAt(v, b)) || (WhiteAt(v, a) && WhiteAt(v, b))
  }

  /** The points hold stones of opposite colours. */
  predicate Opposite(v: PosVal, a: PointOfPlay, b: PointOfPlay)
    requires Shaped(v) && OnBoard(a) && OnBoard(b)
  {
    (BlackAt(v, a) && WhiteAt(v, b)) || (WhiteAt(v, a) && BlackAt(v, b))
  }

  /**
   * The two fills. getGroupSet steps from a stone to a neighbour of its
   * colour; doCountLibs steps from a stone to any neighbour that is not of
   * the opposite colour, and never steps on from an empty point.
   */
  datatype Walk = GroupWalk | LibertyWalk

  predicate Step(v: PosVal, w: Walk, a: PointOfPlay, b: PointOfPlay)
    requires Shaped(v)
  {
    OnBoard(a) && OnBoard(b) && Adjacent(a, b)
    && match w
       case GroupWalk => SameColour(v, a, b)
       case LibertyWalk => StoneAt(v, a) && !Opposite(v, a, b)
  }

  /** A sequence of steps whose every point after the first lies outside `avoid`. */
  ghost predicate Chain(v: PosVal, w: Walk, avoid: set<PointOfPlay>, path: seq<PointOfPlay>)
    requires Shaped(v)
  {
    |path| > 0
    && forall i | 0 < i < |path| :: path[i] !in avoid && Step(v, w, path[i - 1], path[i])
  }

  ghost predicate Reaches(v: PosVal, w: Walk, avoid: set<PointOfPlay>, p: PointOfPlay, q: PointOfPlay)
    requires Shaped(v)
  {
    exists path :: Chain(v, w, avoid, path) && path[0] == p && path[|path| - 1] == q
  }

  /** What a fill from p visits when `avoid` is already marked. */
  ghost function Reach(v: PosVal, w: Walk, avoid: set<PointOfPlay>, p: PointOfPlay): set<PointOfPlay>
    requires Shaped(v)
  {
    set q | q in AllPoints() && Reaches(v, w, avoid, p, q)
  }

  ghost function Stones(v: PosVal, s: set<PointOfPlay>): set<PointOfPlay>
    requires Shaped(v)
  {
    set q | q in s && OnBoard(q) && StoneAt(v, q)
  }

  ghost function Empties(v: PosVal, s: set<PointOfPlay>): set<PointOfPlay>
    requires Shaped(v)
  {
    set q | q in s && OnBoard(q) && !StoneAt(v, q)
  }

  /** getGroupSet(p, null, 19): the stones connected to p through its own colour. */
  ghost function GroupOf(v: PosVal, p: PointOfPlay): set<PointOfPlay>
    requires Shaped(v)
  {
    if OnBoard(p) then Stones(v, Reach(v, GroupWalk, {}, p)) else {}
  }

  /** Every point a fill has marked since it began is reachable from its start. */
  ghost predicate Sound(v: PosVal, w: Walk, m0: set<PointOfPlay>, p: PointOfPlay, m: set<PointOfPlay>)
    requires Shaped(v)
  {
    forall q | q in m && q !in m0 :: Reaches(v, w, m0, p, q)
  }

  /** Every step out of a point of `d` lands on a marked point. */
  ghost predicate ClosedOn(v: PosVal, w: Walk, d: set<PointOfPlay>, m: set<PointOfPlay>)
    requires Shaped(v)
  {
    forall q, r | q in d && Step(v, w, q, r) :: r in m
  }

  // ---------------------------------------------------------------------
  // Reachability lemmas

  lemma ReachesSelf(v: PosVal, w: Walk, avoid: set<PointOfPlay>, p: PointOfPlay)
    requires Shaped(v)
    ensures Reaches(v, w, avoid, p, p)
  {
    assert Chain(v, w, avoid, [p]);
  }

  lemma ReachesOnBoard(v: PosVal, w: Walk, avoid: set<PointOfPlay>, p: PointOfPlay, q: PointOfPlay)
    requires Shaped(v) && OnBoard(p) && Reaches(v, w, avoid, p, q)
    ensures OnBoard(q)
  {
    var path :| Chain(v, w, avoid, path) && path[0] == p && path[|path| - 1] == q;
    if |path| > 1 {
      assert Step(v, w, path[|path| - 2], path[|path| - 1]);
    }
  }

  lemma InReach(v: PosVal, w: Walk, avoid: set<PointOfPlay>, p: PointOfPlay, q: PointOfPlay)
    requires Shaped(v) && OnBoard(p)
    ensures q in Reach(v, w, avoid, p) <==> Reaches(v, w, avoid, p, q)
  {
    AllPointsOnBoard(q);
    if Reaches(v, w, avoid, p, q) {
      ReachesOnBoard(v, w, avoid, p, q);
    }
  }

  /** A step into an unavoided point followed by a chain avoiding a larger set is a chain. */
  lemma PrependStep(v: PosVal, w: Walk, avoid: set<PointOfPlay>, larger: set<PointOfPlay>,
                    p: PointOfPlay, d: PointOfPlay, q: PointOfPlay)
    requires Shaped(v) && avoid <= larger && d !in avoid && Step(v, w, p, d)
    requires Reaches(v, w, larger, d, q)
    ensures Reaches(v, w, avoid, p, q)
  {
    var path :| Chain(v, w, larger, path) && path[0] == d && path[|path| - 1] == q;
    var longer := [p] + path;
    forall i | 0 < i < |longer|
      ensures longer[i] !in avoid && Step(v, w, longer[i - 1], longer[i])
    {
      if i > 1 {
        assert longer[i] == path[i - 1] && longer[i - 1] == path[i - 2];
      }
    }
    assert Chain(v, w, avoid, longer);
  }

  /** A chain from p stays inside a set that holds p and is closed under steps out of it. */
  lemma {:induction false} ChainStaysIn(v: PosVal, w: Walk, m0: set<PointOfPlay>, m: set<PointOfPlay>,
                                        p: PointOfPlay, path: seq<PointOfPlay>, i: int)
    requires Shaped(v) && Chain(v, w, m0, path) && path[0] == p && 0 <= i < |path|
    requires ClosedOn(v, w, (m - m0) + {p}, m)
    ensures path[i] in (m - m0) + {p}
    decreases i
  {
    if i > 0 {
      ChainStaysIn(v, w, m0, m, p, path, i - 1);
      assert Step(v, w, path[i - 1], path[i]);
    }
  }

  /**
   * A finished fill: marks grew by p, every new mark is reachable, and every
   * step out of the new marks lands on a mark. Then the new marks (with p)
   * are exactly the points reachable from p.
   */
  lemma FillIsReach(v: PosVal, w: Walk, m0: set<PointOfPlay>, p: PointOfPlay, m: set<PointOfPlay>)
    requires Shaped(v) && OnBoard(p) && m0 + {p} <= m
    requires Sound(v, w, m0, p, m) && ClosedOn(v, w, (m - m0) + {p}, m)
    ensures Reach(v, w, m0, p) == (m - m0) + {p}
    ensures m == m0 + Reach(v, w, m0, p)
  {
    forall q | q in Reach(v, w, m0, p)
      ensures q in (m - m0) + {p}
    {
      InReach(v, w, m0, p, q);
      var path :| Chain(v, w, m0, path) && path[0] == p && path[|path| - 1] == q;
      ChainStaysIn(v, w, m0, m, p, path, |path| - 1);
    }
    forall q | q in (m - m0) + {p}
      ensures q in Reach(v, w, m0, p)
    {
      InReach(v, w, m0, p, q);
      if q == p {
        ReachesSelf(v, w, m0, p);
      }
    }
  }

  /** The fill from p is sound after a nested fill from a neighbour d. */
  lemma SoundAfterVisit(v: PosVal, w: Walk, m0: set<PointOfPlay>, m1: set<PointOfPlay>, m2: set<PointOfPlay>,
                        p: PointOfPlay, d: PointOfPlay)
    requires Shaped(v) && m0 <= m1 && d !in m1 && Step(v, w, p, d)
    requires Sound(v, w, m0, p, m1) && Sound(v, w, m1, d, m2)
    ensures Sound(v, w, m0, p, m2)
  {
    forall q | q in m2 && q !in m0
      ensures Reaches(v, w, m0, p, q)
    {
      if q !in m1 {
        PrependStep(v, w, m0, m1, p, d, q);
      }
    }
  }

  lemma ClosedAfterVisit(v: PosVal, w: Walk, m0: set<PointOfPlay>, m1: set<PointOfPlay>, m2: set<PointOfPlay>,
                         p: PointOfPlay, d: PointOfPlay)
    requires Shaped(v) && m1 <= m2
    requires ClosedOn(v, w, m1 - m0 - {p}, m1) && ClosedOn(v, w, (m2 - m1) + {d}, m2)
    ensures ClosedOn(v, w, m2 - m0 - {p}, m2)
  {}

  /** A fill that has just marked its start p. */
  lemma FillStart(v: PosVal, w: Walk, m0: set<PointOfPlay>, p: PointOfPlay)
    requires Shaped(v)
    ensures Sound(v, w, m0, p, m0 + {p}) && ClosedOn(v, w, (m0 + {p}) - m0 - {p}, m0 + {p})
    ensures (m0 + {p}) - m0 + {p} == {p}
  {
    ReachesSelf(v, w, m0, p);
  }

  /** The bookkeeping after a nested fill from the neighbour d of p. */
  lemma VisitDone(v: PosVal, w: Walk, m0: set<PointOfPlay>, m1: set<PointOfPlay>, m2: set<PointOfPlay>,
                  p: PointOfPlay, d: PointOfPlay)
    requires Shaped(v) && m0 + {p} <= m1 && m1 + {d} <= m2 && d !in m1 && Step(v, w, p, d)
    requires Sound(v, w, m0, p, m1) && Sound(v, w, m1, d, m2)
    requires ClosedOn(v, w, m1 - m0 - {p}, m1) && ClosedOn(v, w, (m2 - m1) + {d}, m2)
    ensures Sound(v, w, m0, p, m2) && ClosedOn(v, w, m2 - m0 - {p}, m2)
    ensures (m2 - m0) + {p} == ((m1 - m0) + {p}) + ((m2 - m1) + {d})
    ensures ((m1 - m0) + {p}) !! ((m2 - m1) + {d})
  {
    SoundAfterVisit(v, w, m0, m1, m2, p, d);
    ClosedAfterVisit(v, w, m0, m1, m2, p, d);
  }

  lemma StonesUnion(v: PosVal, a: set<PointOfPlay>, b: set<PointOfPlay>)
    requires Shaped(v)
    ensures Stones(v, a + b) == Stones(v, a) + Stones(v, b)
  {}

  lemma EmptiesUnion(v: PosVal, a: set<PointOfPlay>, b: set<PointOfPlay>)
    requires Shaped(v) && a !! b
    ensures |Empties(v, a + b)| == |Empties(v, a)| + |Empties(v, b)|
  {
    assert Empties(v, a + b) == Empties(v, a) + Empties(v, b);
    assert Empties(v, a) !! Empties(v, b);
  }

  /** The four visited neighbours are all the adjacent points. */
  lemma ClosedAtStart(v: PosVal, w: Walk, m: set<PointOfPlay>, d: set<PointOfPlay>, p: PointOfPlay)
    requires Shaped(v) && ClosedOn(v, w, d - {p}, m)
    requires Step(v, w, p, North(p)) ==> North(p) in m
    requires Step(v, w, p, East(p)) ==> East(p) in m
    requires Step(v, w, p, South(p)) ==> South(p) in m
    requires Step(v, w, p, West(p)) ==> West(p) in m
    ensures ClosedOn(v, w, d + {p}, m)
  {}

  // ---------------------------------------------------------------------
  // Groups and liberties

  /** The empty points next to some stone of p's group. */
  ghost function Liberties(v: PosVal, p: PointOfPlay): set<PointOfPlay>
    requires Shaped(v)
  {
    set e | e in AllPoints() && OnBoard(e) && !StoneAt(v, e) && exists g :: g in GroupOf(v, p) && Adjacent(g, e)
  }

  lemma InGroup(v: PosVal, p: PointOfPlay, q: PointOfPlay)
    requires Shaped(v) && OnBoard(p)
    ensures q in GroupOf(v, p) <==> OnBoard(q) && StoneAt(v, q) && Reaches(v, GroupWalk, {}, p, q)
  {
    InReach(v, GroupWalk, {}, p, q);
    if Reaches(v, GroupWalk, {}, p, q) {
      ReachesOnBoard(v, GroupWalk, {}, p, q);
    }
  }

  /** Neither fill steps on from an empty point, so a fill from one visits it alone. */
  lemma EmptyPointReach(v: PosVal, w: Walk, avoid: set<PointOfPlay>, p: PointOfPlay)
    requires Shaped(v) && OnBoard(p) && !StoneAt(v, p)
    ensures Reach(v, w, avoid, p) == {p}
    ensures Empties(v, Reach(v, w, avoid, p)) == {p} && Stones(v, Reach(v, w, avoid, p)) == {}
  {
    ReachesSelf(v, w, avoid, p);
    InReach(v, w, avoid, p, p);
    forall q | q in Reach(v, w, avoid, p)
      ensures q == p
    {
      InReach(v, w, avoid, p, q);
      var path :| Chain(v, w, avoid, path) && path[0] == p && path[|path| - 1] == q;
      assert |path| > 1 ==> Step(v, w, path[0], path[1]);
    }
    assert Empties(v, {p}) == {p};
  }

  /** A stone belongs to its own group; an empty or off-board point has an empty group. */
  lemma GroupHasStart(v: PosVal, p: PointOfPlay)
    requires Shaped(v)
    ensures p in GroupOf(v, p) <==> OnBoard(p) && StoneAt(v, p)
    ensures !(OnBoard(p) && StoneAt(v, p)) ==> GroupOf(v, p) == {}
  {
    if OnBoard(p) {
      InGroup(v, p, p);
      ReachesSelf(v, GroupWalk, {}, p);
      if !StoneAt(v, p) {
        EmptyPointReach(v, GroupWalk, {}, p);
      }
    }
  }

  /** With no doubly occupied point, a step of the group walk keeps the colour. */
  lemma {:induction false} ChainKeepsColour(v: PosVal, path: seq<PointOfPlay>, i: int)
    requires Shaped(v) && NoOverlap(v) && Chain(v, GroupWalk, {}, path) && OnBoard(path[0]) && 0 <= i < |path|
    ensures OnBoard(path[i])
    ensures i > 0 ==> BlackAt(v, path[i]) == BlackAt(v, path[0]) && WhiteAt(v, path[i]) == WhiteAt(v, path[0])
    decreases i
  {
    if i > 0 {
      ChainKeepsColour(v, path, i - 1);
      assert Step(v, GroupWalk, path[i - 1], path[i]);
    }
  }

  /** Every member of p's group holds a stone of p's colour. */
  lemma GroupSameColour(v: PosVal, p: PointOfPlay, q: PointOfPlay)
    requires Shaped(v) && NoOverlap(v) && q in GroupOf(v, p)
    ensures OnBoard(p) && OnBoard(q) && StoneAt(v, q)
    ensures BlackAt(v, q) == BlackAt(v, p) && WhiteAt(v, q) == WhiteAt(v, p)
  {
    InGroup(v, p, q);
    var path :| Chain(v, GroupWalk, {}, path) && path[0] == p && path[|path| - 1] == q;
    ChainKeepsColour(v, path, |path| - 1);
  }

  /** A neighbour of a member that holds the same colour is a member too. */
  lemma GroupClosed(v: PosVal, p: PointOfPlay, q: PointOfPlay, r: PointOfPlay)
    requires Shaped(v) && q in GroupOf(v, p) && OnBoard(r) && Adjacent(q, r)
    requires SameColour(v, q, r)
    ensures r in GroupOf(v, p)
  {
    GroupHasStart(v, p);
    InGroup(v, p, q);
    InGroup(v, p, r);
    var path :| Chain(v, GroupWalk, {}, path) && path[0] == p && path[|path| - 1] == q;
    var longer := path + [r];
    assert Step(v, GroupWalk, q, r);
    forall i | 0 < i < |longer|
      ensures longer[i] !in {} && Step(v, GroupWalk, longer[i - 1], longer[i])
    {
      if i < |path| {
        assert longer[i] == path[i] && longer[i - 1] == path[i - 1];
      }
    }
    assert Chain(v, GroupWalk, {}, longer);
  }

  /** A stone with no neighbour of its own colour is a group by itself. */
  lemma LoneStone(v: PosVal, p: PointOfPlay)
    requires Shaped(v) && OnBoard(p) && StoneAt(v, p)
    requires forall r | OnBoard(r) && Adjacent(p, r) :: !SameColour(v, p, r)
    ensures GroupOf(v, p) == {p}
  {
    GroupHasStart(v, p);
    forall q | q in GroupOf(v, p)
      ensures q == p
    {
      InGroup(v, p, q);
      var path :| Chain(v, GroupWalk, {}, path) && path[0] == p && path[|path| - 1] == q;
      assert |path| > 1 ==> Step(v, GroupWalk, path[0], path[1]);
    }
  }

  /** Black holds exactly (2,2), (2,3) and (3,3): the group of (2,2) is those three stones. */
  lemma {:induction false} BlackTrio(v: PosVal)
    requires Shaped(v) && NoOverlap(v)
    requires forall q | OnBoard(q) ::
               BlackAt(v, q) <==> q in {PointOfPlay(2, 2), PointOfPlay(2, 3), PointOfPlay(3, 3)}
    ensures GroupOf(v, PointOfPlay(2, 2)) == {PointOfPlay(2, 2), PointOfPlay(2, 3), PointOfPlay(3, 3)}
  {
    var a, b, c := PointOfPlay(2, 2), PointOfPlay(2, 3), PointOfPlay(3, 3);
    assert BlackAt(v, a) && BlackAt(v, b) && BlackAt(v, c);
    GroupHasStart(v, a);
    assert b == North(a) && c == East(b);
    GroupClosed(v, a, a, b);
    GroupClosed(v, a, b, c);
    forall q | q in GroupOf(v, a) ensures q in {a, b, c} {
      GroupSameColour(v, a, q);
    }
  }

  /**
   * A play node of testGetGroup3Set, hung under a root as the test's shared
   * root is. The derived position reads only the node's colour and point.
   */
  function TestPlay(x: int, y: int, c: char): (m: Node)
    requires c == MoveBlack || c == MoveWhite
    ensures m.IsMove() && m.color == c && m.x == x && m.y == y
  {
    PlayNodeUnderRoot(x, y, c);
    PlayNode(x, y, c, 0, RootNode(0)).value
  }

  lemma PlayNodeUnderRoot(x: int, y: int, c: char)
    requires c == MoveBlack || c == MoveWhite
    ensures PlayNode(x, y, c, 0, RootNode(0)).Ok?
  {
    PlayAfterNonPlay(x, y, c, 0, RootNode(0));
  }

  /** `new Position(pos, move)` when pos itself may have come from a throw. */
  function Then(r: Result<PosVal>, m: Node): (t: Result<PosVal>)
    requires r.Ok? ==> Shaped(r.value)
    ensures t.Ok? ==> Shaped(t.value)
  {
    if r.Err? then r else Derive(r.value, m)
  }

  /** The first three plays of testGetGroup3Set: black (2,2), white (2,5), black (2,3). */
  function Group3Prefix(): (r: Result<PosVal>)
    ensures r.Ok? ==> Shaped(r.value)
  {
    var p1 := Derive(EmptyVal(), TestPlay(2, 2, MoveBlack));
    var p2 := Then(p1, TestPlay(2, 5, MoveWhite));
    Then(p2, TestPlay(2, 3, MoveBlack))
  }

  /** The position of testGetGroup3Set: then white (6,5) and black (3,3). */
  function Group3Position(): Result<PosVal> {
    Then(Then(Group3Prefix(), TestPlay(6, 5, MoveWhite)), TestPlay(3, 3, MoveBlack))
  }

  /** The stones of a tidy position, as two disjoint sets. */
  ghost predicate HoldsExactly(v: PosVal, bs: set<PointOfPlay>, ws: set<PointOfPlay>) {
    Tidy(v) && bs !! ws
    && forall q | OnBoard(q) :: (BlackAt(v, q) <==> q in bs) && (WhiteAt(v, q) <==> q in ws)
  }

  /** A play on an empty point adds its stone to its colour's set. */
  lemma {:induction false} PlayOnEmpty(prev: PosVal, m: Node, bs: set<PointOfPlay>, ws: set<PointOfPlay>)
    requires HoldsExactly(prev, bs, ws) && m.IsMove() && !m.IsPass()
    requires OnBoard(PointOfPlay(m.x, m.y)) && PointOfPlay(m.x, m.y) !in bs + ws
    ensures Derive(prev, m).Ok?
    ensures m.IsBlack() ==> HoldsExactly(Derive(prev, m).value, bs + {PointOfPlay(m.x, m.y)}, ws)
    ensures m.IsWhite() ==> HoldsExactly(Derive(prev, m).value, bs, ws + {PointOfPlay(m.x, m.y)})
  {
    assert NoOverlap(prev);
    CheckValidIff(prev);
    PlayEffect(prev, m);
  }

  lemma {:induction false} Group3PrefixStones()
    ensures Group3Prefix().Ok?
    ensures HoldsExactly(Group3Prefix().value, {PointOfPlay(2, 2)} + {PointOfPlay(2, 3)}, {PointOfPlay(2, 5)})
  {
    var e := EmptyVal();
    assert HoldsExactly(e, {}, {});
    var m1 := TestPlay(2, 2, MoveBlack);
    PlayOnEmpty(e, m1, {}, {});
    var v1 := Derive(e, m1).value;
    var b1 := {} + {PointOfPlay(2, 2)};
    var m2 := TestPlay(2, 5, MoveWhite);
    PlayOnEmpty(v1, m2, b1, {});
    var v2 := Derive(v1, m2).value;
    var w2 := {} + {PointOfPlay(2, 5)};
    var m3 := TestPlay(2, 3, MoveBlack);
    PlayOnEmpty(v2, m3, b1, w2);
    assert b1 == {PointOfPlay(2, 2)} && w2 == {PointOfPlay(2, 5)};
  }

  /** The stones testGetGroup3Set plays, each on an empty point. */
  lemma {:induction false} Group3Stones()
    ensures Group3Position().Ok?
    ensures HoldsExactly(Group3Position().value,
                         {PointOfPlay(2, 2)} + {PointOfPlay(2, 3)} + {PointOfPlay(3, 3)},
                         {PointOfPlay(2, 5)} + {PointOfPlay(6, 5)})
  {
    Group3PrefixStones();
    var v3 := Group3Prefix().value;
    var b3 := {PointOfPlay(2, 2)} + {PointOfPlay(2, 3)};
    var m4 := TestPlay(6, 5, MoveWhite);
    PlayOnEmpty(v3, m4, b3, {PointOfPlay(2, 5)});
    var v4 := Derive(v3, m4).value;
    var m5 := TestPlay(3, 3, MoveBlack);
    PlayOnEmpty(v4, m5, b3, {PointOfPlay(2, 5)} + {PointOfPlay(6, 5)});
  }

  /** testGetGroup3Set: getGroupSet from (2,2) has three members. */
  lemma {:induction false} Group3Example()
    ensures Group3Position().Ok?
    ensures GroupOf(Group3Position().value, PointOfPlay(2, 2))
            == {PointOfPlay(2, 2), PointOfPlay(2, 3), PointOfPlay(3, 3)}
    ensures |GroupOf(Group3Position().value, PointOfPlay(2, 2))| == 3
  {
    Group3Stones();
    var v := Group3Position().value;
    assert {PointOfPlay(2, 2)} + {PointOfPlay(2, 3)} + {PointOfPlay(3, 3)}
           == {PointOfPlay(2, 2), PointOfPlay(2, 3), PointOfPlay(3, 3)};
    assert NoOverlap(v);
    BlackTrio(v);
  }

  /** Without doubly occupied points a group step is a liberty step. */
  lemma GroupStepIsLibertyStep(v: PosVal, a: PointOfPlay, b: PointOfPlay)
    requires Shaped(v) && NoOverlap(v) && Step(v, GroupWalk, a, b)
    ensures Step(v, LibertyWalk, a, b)
  {}

  /** ... and a liberty step between two stones is a group step. */
  lemma LibertyStepBetweenStones(v: PosVal, a: PointOfPlay, b: PointOfPlay)
    requires Shaped(v) && NoOverlap(v) && Step(v, LibertyWalk, a, b) && StoneAt(v, b)
    ensures Step(v, GroupWalk, a, b)
  {}

  /** A liberty chain passes only through stones before its last point, so that part is a group chain. */
  lemma LibertyChainBody(v: PosVal, path: seq<PointOfPlay>)
    requires Shaped(v) && NoOverlap(v) && Chain(v, LibertyWalk, {}, path) && |path| > 1
    ensures Chain(v, GroupWalk, {}, path[..|path| - 1])
    ensures OnBoard(path[|path| - 2]) && Adjacent(path[|path| - 2], path[|path| - 1])
  {
    var body := path[..|path| - 1];
    forall i | 0 < i < |body|
      ensures body[i] !in {} && Step(v, GroupWalk, body[i - 1], body[i])
    {
      assert Step(v, LibertyWalk, path[i], path[i + 1]);
      LibertyStepBetweenStones(v, path[i - 1], path[i]);
    }
    assert Step(v, LibertyWalk, path[|path| - 2], path[|path| - 1]);
  }

  lemma GroupChainIsLibertyChain(v: PosVal, path: seq<PointOfPlay>)
    requires Shaped(v) && NoOverlap(v) && Chain(v, GroupWalk, {}, path)
    ensures Chain(v, LibertyWalk, {}, path)
  {
    forall i | 0 < i < |path|
      ensures Step(v, LibertyWalk, path[i - 1], path[i])
    {
      GroupStepIsLibertyStep(v, path[i - 1], path[i]);
    }
  }

  /**
   * The empty points a liberty fill from a stone reaches, with nothing
   * marked beforehand, are exactly the liberties of the stone's group.
   */
  lemma LibertyFillCountsLiberties(v: PosVal, p: PointOfPlay)
    requires Shaped(v) && NoOverlap(v) && OnBoard(p) && StoneAt(v, p)
    ensures Empties(v, Reach(v, LibertyWalk, {}, p)) == Liberties(v, p)
  {
    forall e | e in Empties(v, Reach(v, LibertyWalk, {}, p))
      ensures e in Liberties(v, p)
    {
      InReach(v, LibertyWalk, {}, p, e);
      var path :| Chain(v, LibertyWalk, {}, path) && path[0] == p && path[|path| - 1] == e;
      LibertyChainBody(v, path);
      var body := path[..|path| - 1];
      var g := body[|body| - 1];
      assert Reaches(v, GroupWalk, {}, p, g);
      assert Step(v, LibertyWalk, g, e);
      InGroup(v, p, g);
      AllPointsOnBoard(e);
    }
    forall e | e in Liberties(v, p)
      ensures e in Empties(v, Reach(v, LibertyWalk, {}, p))
    {
      var g :| g in GroupOf(v, p) && Adjacent(g, e);
      InGroup(v, p, g);
      var path :| Chain(v, GroupWalk, {}, path) && path[0] == p && path[|path| - 1] == g;
      GroupChainIsLibertyChain(v, path);
      var longer := path + [e];
      forall i | 0 < i < |longer|
        ensures longer[i] !in {} && Step(v, LibertyWalk, longer[i - 1], longer[i])
      {
        if i < |path| {
          assert longer[i] == path[i] && longer[i - 1] == path[i - 1];
        }
      }
      assert Chain(v, LibertyWalk, {}, longer);
      InReach(v, LibertyWalk, {}, p, e);
    }
  }

  // ---------------------------------------------------------------------
  // The markable position

  class MarkablePosition {
    /** The position this one extends; its arrays are its own copies. */
    const pos: Position
    const marks: array<bv32>
    /** The marked points, as the bits of `marks` record them. */
    ghost var Marked: set<PointOfPlay>

    ghost predicate Valid()
      reads this, marks
    {
      pos.Valid() && marks.Length == Size && marks != pos.posBlack && marks != pos.posWhite
      && (forall q | q in Marked :: OnBoard(q))
      && forall q {:trigger Bit(marks[q.y], q.x)} | OnBoard(q) :: (q in Marked <==> Bit(marks[q.y], q.x))
    }

    /** `new MarkablePosition(p)`: copies p and starts with no marks. */
    constructor (p: Position)
      requires p.Valid()
      ensures Valid() && Marked == {} && pos.Val() == p.Val()
      ensures fresh(pos) && fresh(pos.posBlack) && fresh(pos.posWhite) && fresh(marks)
    {
      pos := new Position.Copy(p);
      marks := new bv32[Size](i => 0);
      Marked := {};
      new;
      forall q | OnBoard(q)
        ensures !Bit(marks[q.y], q.x)
      {
        ZeroBit(q.x);
      }
    }

    /** clearMarks: zeroes every mark row. */
    method ClearMarks()
      requires Valid()
      modifies this, marks
      ensures Valid() && Marked == {}
    {
      var i := 0;
      while i < marks.Length
        invariant 0 <= i <= marks.Length
        invariant forall j | 0 <= j < i :: marks[j] == 0
      {
        marks[i] := 0;
        i := i + 1;
      }
      Marked := {};
      forall q | OnBoard(q)
        ensures !Bit(marks[q.y], q.x)
      {
        ZeroBit(q.x);
      }
    }

    /** isMarked: the mark bit of p; an off-board point indexes past an array. */
    function IsMarked(p: PointOfPlay): (r: Result<bool>)
      requires Valid()
      reads this, marks
      ensures r.Ok? <==> OnBoard(p)
      ensures r.Ok? ==> (r.value <==> p in Marked)
      ensures r.Err? ==> r.fault == ArrayIndexOutOfBounds
    {
      if OnBoard(p) then Ok(Bit(marks[p.y], p.x)) else Err(ArrayIndexOutOfBounds)
    }

    /** setMark: adds the column bit when it is not yet set. */
    method SetMark(p: PointOfPlay) returns (r: Outcome)
      requires Valid()
      modifies this, marks
      ensures Valid()
      ensures OnBoard(p) ==> r == Done && Marked == old(Marked) + {p}
      ensures !OnBoard(p) ==> r == Thrown(ArrayIndexOutOfBounds) && Marked == old(Marked)
      ensures marks[..] == old(marks[..]) || OnBoard(p)
    {
      if !OnBoard(p) {
        return Thrown(ArrayIndexOutOfBounds);
      }
      if !Bit(marks[p.y], p.x) {
        AddClearBit(marks[p.y], p.x);
        ghost var row := marks[p.y];
        marks[p.y] := Plus(marks[p.y], Col(p.x));
        forall z | 0 <= z < Size
          ensures Bit(marks[p.y], z) <==> z == p.x || Bit(row, z)
        {
          OrBit(row, p.x, z);
        }
      }
      Marked := Marked + {p};
      r := Done;
    }

    /** clearMark: flips the column bit off when it is set. */
    method ClearMark(p: PointOfPlay) returns (r: Outcome)
      requires Valid()
      modifies this, marks
      ensures Valid()
      ensures OnBoard(p) ==> r == Done && Marked == old(Marked) - {p}
      ensures !OnBoard(p) ==> r == Thrown(ArrayIndexOutOfBounds) && Marked == old(Marked)
    {
      if !OnBoard(p) {
        return Thrown(ArrayIndexOutOfBounds);
      }
      if Bit(marks[p.y], p.x) {
        XorSetBit(marks[p.y], p.x);
        ghost var row := marks[p.y];
        marks[p.y] := Flip(marks[p.y], Col(p.x));
        forall z | 0 <= z < Size
          ensures Bit(marks[p.y], z) <==> z != p.x && Bit(row, z)
        {
          ClearBit(row, p.x, z);
        }
      }
      Marked := Marked - {p};
      r := Done;
    }

    /**
     * getGroupSet(p, null, 19): clears all marks, then fills from p through
     * stones of p's colour. An off-board p gives the empty set; stoneAt's
     * validity check throws on a position with a doubly occupied point.
     */
    method GetGroupSet(p: PointOfPlay) returns (r: Result<set<PointOfPlay>>)
      requires Valid()
      modifies this, marks
      ensures Valid()
      ensures !OnBoard(p) ==> r == Ok({}) && Marked == {}
      ensures OnBoard(p) && !CheckPasses(pos.Val()) ==> r == Err(InvalidPosition) && Marked == {p}
      ensures OnBoard(p) && CheckPasses(pos.Val()) ==>
        r == Ok(GroupOf(pos.Val(), p)) && Marked == Reach(pos.Val(), GroupWalk, {}, p)
    {
      ClearMarks();
      if !OnBoard(p) {
        return Ok({});
      }
      var ok := pos.CheckValid();
      if ok != Done {
        var _ := SetMark(p);
        return Err(InvalidPosition);
      }
      ghost var v := pos.Val();
      var members := GroupFill(p, {}, v);
      FillIsReach(v, GroupWalk, {}, p, Marked);
      assert members == Stones(v, Reach(v, GroupWalk, {}, p));
      r := Ok(members);
    }

    /** The recursive body of getGroupSet: `members` is non-null. */
    method GroupFill(p: PointOfPlay, members: set<PointOfPlay>, ghost v: PosVal) returns (r: set<PointOfPlay>)
      requires Valid() && v == pos.Val() && CheckPasses(v) && OnBoard(p)
      modifies this, marks
      ensures Valid() && old(Marked) + {p} <= Marked
      ensures Sound(v, GroupWalk, old(Marked), p, Marked)
      ensures ClosedOn(v, GroupWalk, (Marked - old(Marked)) + {p}, Marked)
      ensures r == members + Stones(v, (Marked - old(Marked)) + {p})
      decreases AllPoints() - Marked, if p in Marked then 1 else 0, 0
    {
      ghost var m0 := Marked;
      AllPointsOnBoard(p);
      var _ := SetMark(p);
      FillStart(v, GroupWalk, m0, p);
      r := members;
      // stoneAt's validity check is discharged by CheckPasses(v)
      if StoneAt(pos.Val(), p) {
        r := r + {p};
        r := GroupNeighbours(p, r, members, m0, v);
      } else {
        assert Stones(v, (Marked - m0) + {p}) == {};
        assert ClosedOn(v, GroupWalk, (Marked - m0) + {p}, Marked);
      }
    }

    /** The four neighbour tests of getGroupSet, north, east, south and west. */
    method GroupNeighbours(p: PointOfPlay, acc: set<PointOfPlay>,
                           ghost members: set<PointOfPlay>, ghost m0: set<PointOfPlay>, ghost v: PosVal)
      returns (r: set<PointOfPlay>)
      requires Valid() && v == pos.Val() && CheckPasses(v) && OnBoard(p) && StoneAt(v, p)
      requires Marked == m0 + {p} && Sound(v, GroupWalk, m0, p, Marked)
      requires acc == members + Stones(v, (Marked - m0) + {p})
      modifies this, marks
      ensures Valid() && m0 + {p} <= Marked
      ensures Sound(v, GroupWalk, m0, p, Marked)
      ensures ClosedOn(v, GroupWalk, (Marked - m0) + {p}, Marked)
      ensures r == members + Stones(v, (Marked - m0) + {p})
      decreases AllPoints() - Marked, 0, 2
    {
      assert Marked - m0 - {p} == {};
      r := GroupVisit(p, North(p), acc, members, m0, v);
      r := GroupVisit(p, East(p), r, members, m0, v);
      r := GroupVisit(p, South(p), r, members, m0, v);
      r := GroupVisit(p, West(p), r, members, m0, v);
      ClosedAtStart(v, GroupWalk, Marked, Marked - m0, p);
    }

    /** One neighbour test of getGroupSet, and the nested fill when it passes. */
    method GroupVisit(p: PointOfPlay, d: PointOfPlay, acc: set<PointOfPlay>,
                      ghost members: set<PointOfPlay>, ghost m0: set<PointOfPlay>, ghost v: PosVal)
      returns (r: set<PointOfPlay>)
      requires Valid() && v == pos.Val() && CheckPasses(v) && OnBoard(p) && StoneAt(v, p) && Adjacent(p, d)
      requires m0 + {p} <= Marked && Sound(v, GroupWalk, m0, p, Marked)
      requires ClosedOn(v, GroupWalk, Marked - m0 - {p}, Marked)
      requires acc == members + Stones(v, (Marked - m0) + {p})
      modifies this, marks
      ensures Valid() && old(Marked) <= Marked && m0 + {p} <= Marked
      ensures Sound(v, GroupWalk, m0, p, Marked)
      ensures ClosedOn(v, GroupWalk, Marked - m0 - {p}, Marked)
      ensures r == members + Stones(v, (Marked - m0) + {p})
      ensures Step(v, GroupWalk, p, d) ==> d in Marked
      decreases AllPoints() - Marked, 0, 1
    {
      r := acc;
      if OnBoard(d) && !IsMarked(d).value && SameColour(pos.Val(), p, d) {
        ghost var m1 := Marked;
        r := GroupFill(d, acc, v);
        VisitDone(v, GroupWalk, m0, m1, Marked, p, d);
        StonesUnion(v, (m1 - m0) + {p}, (Marked - m1) + {d});
      }
    }
  }
}
